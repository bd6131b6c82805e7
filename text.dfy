/** ASCII models of the Python string primitives the scrapers rely on:
    str.strip, str.split, str.lower/upper, `in` on strings, str.startswith/endswith,
    str.replace(pattern, "") and the regex classes \s and \d. */
module Text {
  import opened Sequences

  /** Python's str.isspace restricted to ASCII: tab, newline, vertical tab, form feed,
      carriage return, the four information separators 0x1C-0x1F and the blank. */
  predicate IsSpace(c: char) {
    c == ' ' || '\t' <= c <= '\r' || '\U{1C}' <= c <= '\U{1F}'
  }

  predicate IsDigit(c: char) { '0' <= c <= '9' }

  predicate IsUpperLetter(c: char) { 'A' <= c <= 'Z' }

  predicate IsLowerLetter(c: char) { 'a' <= c <= 'z' }

  predicate IsLetter(c: char) { IsUpperLetter(c) || IsLowerLetter(c) }

  function LowerChar(c: char): (d: char)
    ensures !IsUpperLetter(d)
    ensures IsUpperLetter(c) || d == c
    ensures IsLetter(c) <==> IsLowerLetter(d)
  {
    if IsUpperLetter(c) then (c as int + 32) as char else c
  }

  function UpperChar(c: char): (d: char)
    ensures !IsLowerLetter(d)
    ensures IsLowerLetter(c) || d == c
    ensures IsLetter(c) <==> IsUpperLetter(d)
  {
    if IsLowerLetter(c) then (c as int - 32) as char else c
  }

  /** str.lower() over ASCII. */
  function Lower(s: string): (r: string)
    ensures |r| == |s|
    ensures forall i :: 0 <= i < |s| ==> r[i] == LowerChar(s[i])
  {
    seq(|s|, i requires 0 <= i < |s| => LowerChar(s[i]))
  }

  /** str.upper() over ASCII. */
  function Upper(s: string): (r: string)
    ensures |r| == |s|
    ensures forall i :: 0 <= i < |s| ==> r[i] == UpperChar(s[i])
  {
    seq(|s|, i requires 0 <= i < |s| => UpperChar(s[i]))
  }

  lemma UpperIdempotent(s: string)
    ensures Upper(Upper(s)) == Upper(s)
  {
    forall i | 0 <= i < |s| ensures Upper(Upper(s))[i] == Upper(s)[i] {
      assert !IsLowerLetter(Upper(s)[i]);
    }
  }

  /** Leading whitespace removed (str.lstrip()). */
  function TrimStart(s: string): (r: string)
    ensures |r| <= |s| && r == s[|s| - |r|..]
    ensures r == [] || !IsSpace(r[0])
    ensures forall i :: 0 <= i < |s| - |r| ==> IsSpace(s[i])
  {
    if s != [] && IsSpace(s[0]) then TrimStart(s[1..]) else s
  }

  /** Trailing whitespace removed (str.rstrip()). */
  function TrimEnd(s: string): (r: string)
    ensures |r| <= |s| && r == s[..|r|]
    ensures r == [] || !IsSpace(r[|r| - 1])
    ensures forall i :: |r| <= i < |s| ==> IsSpace(s[i])
  {
    if s != [] && IsSpace(s[|s| - 1]) then TrimEnd(s[..|s| - 1]) else s
  }

  /** str.strip(): both ends trimmed. */
  function Strip(s: string): (r: string)
    ensures r == [] || (!IsSpace(r[0]) && !IsSpace(r[|r| - 1]))
  {
    var t := TrimEnd(s);
    var r := TrimStart(t);
    assert r != [] ==> r[|r| - 1] == t[|t| - 1];
    r
  }

  /** Trimming only removes whitespace: every other character of s survives. */
  lemma StripKeepsNonSpace(s: string)
    ensures forall i :: 0 <= i < |s| && !IsSpace(s[i]) ==>
      exists k :: 0 <= k < |Strip(s)| && Strip(s)[k] == s[i]
  {
    var t := TrimEnd(s);
    var r := TrimStart(t);
    assert r == Strip(s);
    forall i | 0 <= i < |s| && !IsSpace(s[i])
      ensures exists k :: 0 <= k < |r| && r[k] == s[i]
    {
      assert i < |t|;
      assert t[i] == s[..|t|][i] == s[i];
      assert i >= |t| - |r|;
      var k := i - (|t| - |r|);
      assert r[k] == t[|t| - |r|..][k] == t[i];
    }
  }

  /** s holds no whitespace character. */
  predicate NoSpace(s: string)
    decreases |s|
  {
    s == [] || (!IsSpace(s[0]) && NoSpace(s[1..]))
  }

  /** The first whitespace-free run of s (s must not start with whitespace). */
  function Word(s: string): (w: string)
    ensures |w| <= |s| && w == s[..|w|]
    ensures forall i :: 0 <= i < |w| ==> !IsSpace(w[i])
    ensures |w| == |s| || IsSpace(s[|w|])
  {
    if s == [] || IsSpace(s[0]) then [] else [s[0]] + Word(s[1..])
  }

  /** str.split() with no separator: the maximal whitespace-free runs, in order. */
  function Split(s: string): seq<string>
    decreases |s|
  {
    var t := TrimStart(s);
    if t == [] then [] else
      var w := Word(t);
      [w] + Split(t[|w|..])
  }

  predicate StartsWith(s: string, prefix: string) {
    |prefix| <= |s| && s[..|prefix|] == prefix
  }

  predicate EndsWith(s: string, suffix: string) {
    |suffix| <= |s| && s[|s| - |suffix|..] == suffix
  }

  /** Python's `p in s` for strings, evaluated as a left-to-right scan: p occurs in s
      at some position (the empty string occurs everywhere). */
  predicate Contains(s: string, p: string)
    decreases |s|
  {
    StartsWith(s, p) || (s != [] && Contains(s[1..], p))
  }

  /** a can be obtained from b by deleting characters. */
  predicate IsSubsequence(a: string, b: string)
    decreases |b|
  {
    a == [] || (b != [] && if a[0] == b[0] then IsSubsequence(a[1..], b[1..]) else IsSubsequence(a, b[1..]))
  }

  /** The characters of s that satisfy keep, in order (a regex class deletion). */
  function Filter(s: string, keep: char -> bool): (r: string)
    ensures |r| <= |s|
    ensures forall i :: 0 <= i < |r| ==> keep(r[i])
  {
    if s == [] then []
    else if keep(s[0]) then [s[0]] + Filter(s[1..], keep)
    else Filter(s[1..], keep)
  }

  /** Filtering only deletes: the kept characters appear in s in the same order. */
  lemma {:induction false} FilterIsSubsequence(s: string, keep: char -> bool)
    ensures IsSubsequence(Filter(s, keep), s)
    decreases |s|
  {
    if s != [] {
      FilterIsSubsequence(s[1..], keep);
      var r := Filter(s[1..], keep);
      if keep(s[0]) {
        assert ([s[0]] + r)[1..] == r;
      } else {
        assert r != [] ==> keep(r[0]) && r[0] != s[0];
      }
    }
  }

  /** The filter keeps nothing exactly when no character of s passes it. */
  lemma {:induction false} FilterEmpty(s: string, keep: char -> bool)
    ensures Filter(s, keep) == [] <==> forall i :: 0 <= i < |s| ==> !keep(s[i])
    decreases |s|
  {
    if s != [] {
      FilterEmpty(s[1..], keep);
      assert forall i :: 1 <= i < |s| ==> s[i] == s[1..][i - 1];
    }
  }

  lemma {:induction false} FilterAppend(a: string, b: string, keep: char -> bool)
    ensures Filter(a + b, keep) == Filter(a, keep) + Filter(b, keep)
    decreases |a|
  {
    if a != [] {
      assert (a + b)[0] == a[0] && (a + b)[1..] == a[1..] + b;
      FilterAppend(a[1..], b, keep);
    } else {
      assert a + b == b;
    }
  }

  lemma FilterCons(c: char, t: string, keep: char -> bool)
    ensures Filter([c] + t, keep) == (if keep(c) then [c] else []) + Filter(t, keep)
  {
    assert ([c] + t)[0] == c && ([c] + t)[1..] == t;
  }

  lemma {:induction false} FilterKeepsAll(s: string, keep: char -> bool)
    requires forall i :: 0 <= i < |s| ==> keep(s[i])
    ensures Filter(s, keep) == s
    decreases |s|
  {
    if s != [] {
      FilterKeepsAll(s[1..], keep);
    }
  }

  /** str.replace(pat, ""): every non-overlapping occurrence of pat, found left to
      right, is deleted (a deletion can bring a new occurrence together). */
  function RemoveAll(s: string, pat: string): (r: string)
    requires pat != []
    ensures |r| <= |s|
    ensures forall i :: 0 <= i < |r| ==> r[i] in s
    ensures |pat| == 1 ==> forall i :: 0 <= i < |r| ==> r[i] != pat[0]
    decreases |s|
  {
    if |s| < |pat| then s
    else
      var found := s[..|pat|] == pat;
      (if found then [] else [s[0]]) + RemoveAll(s[if found then |pat| else 1..], pat)
  }

  /** Deleting a pattern none of whose characters survive a filter does not change
      what the filter keeps. */
  lemma {:induction false} FilterRemoveAll(s: string, pat: string, keep: char -> bool)
    requires pat != []
    requires forall i :: 0 <= i < |pat| ==> !keep(pat[i])
    ensures Filter(RemoveAll(s, pat), keep) == Filter(s, keep)
    decreases |s|
  {
    if |s| >= |pat| {
      RemoveAllStep(s, pat);
      if s[..|pat|] == pat {
        FilterRemoveAll(s[|pat|..], pat, keep);
        FilterSkipsPattern(s, pat, keep);
      } else {
        FilterRemoveAll(s[1..], pat, keep);
        FilterCons(s[0], RemoveAll(s[1..], pat), keep);
        FilterCons(s[0], s[1..], keep);
        assert s == [s[0]] + s[1..];
      }
    }
  }

  /** One step of the left-to-right scan of RemoveAll. */
  lemma RemoveAllStep(s: string, pat: string)
    requires pat != [] && |s| >= |pat|
    ensures s[..|pat|] == pat ==> RemoveAll(s, pat) == RemoveAll(s[|pat|..], pat)
    ensures s[..|pat|] != pat ==> RemoveAll(s, pat) == [s[0]] + RemoveAll(s[1..], pat)
  {
    if s[..|pat|] == pat {
      assert [] + RemoveAll(s[|pat|..], pat) == RemoveAll(s[|pat|..], pat);
    }
  }

  /** A leading occurrence of a pattern the filter drops entirely leaves no trace. */
  lemma FilterSkipsPattern(s: string, pat: string, keep: char -> bool)
    requires |pat| <= |s| && s[..|pat|] == pat
    requires forall i :: 0 <= i < |pat| ==> !keep(pat[i])
    ensures Filter(s, keep) == Filter(s[|pat|..], keep)
  {
    var rest := s[|pat|..];
    assert s == pat + rest by {
      assert s == s[..|pat|] + rest;
    }
    assert Filter(pat, keep) == [] by {
      FilterEmpty(pat, keep);
    }
    FilterAppend(pat, rest, keep);
  }

  lemma {:induction false} FilterTrimStart(s: string, keep: char -> bool)
    requires forall c :: IsSpace(c) ==> !keep(c)
    ensures Filter(TrimStart(s), keep) == Filter(s, keep)
    decreases |s|
  {
    if s != [] && IsSpace(s[0]) {
      FilterTrimStart(s[1..], keep);
    }
  }

  lemma FilterTrimEnd(s: string, keep: char -> bool)
    requires forall c :: IsSpace(c) ==> !keep(c)
    ensures Filter(TrimEnd(s), keep) == Filter(s, keep)
  {
    var t := TrimEnd(s);
    assert s == t + s[|t|..];
    FilterAppend(t, s[|t|..], keep);
    FilterEmpty(s[|t|..], keep);
    assert Filter(s[|t|..], keep) == [];
  }

  lemma FilterStrip(s: string, keep: char -> bool)
    requires forall c :: IsSpace(c) ==> !keep(c)
    ensures Filter(Strip(s), keep) == Filter(s, keep)
  {
    FilterTrimEnd(s, keep);
    FilterTrimStart(TrimEnd(s), keep);
  }

  /** re.sub(r"\s+", " ", s): every maximal whitespace run becomes one blank. */
  function CollapseWhitespace(s: string): (r: string)
    ensures forall i :: 0 <= i < |r| ==> r[i] == ' ' || (r[i] in s && !IsSpace(r[i]))
    ensures forall i :: 0 <= i < |r| - 1 ==> !(r[i] == ' ' && r[i + 1] == ' ')
    ensures r != [] ==> s != [] && (r[0] == ' ' <==> IsSpace(s[0]))
    ensures r == [] ==> s == []
    decreases |s|
  {
    if s == [] then []
    else
      var blank := IsSpace(s[0]);
      var rest := if blank then TrimStart(s) else s[1..];
      var head := if blank then " " else [s[0]];
      var tail := CollapseWhitespace(rest);
      CollapseStepChars(s, rest, head, tail, head + tail);
      CollapseStepBlanks(s, rest, head, tail, head + tail);
      head + tail
  }

  /** One step of CollapseWhitespace adds a blank or a character of s. */
  lemma CollapseStepChars(s: string, rest: string, head: string, tail: string, r: string)
    requires s != [] && rest == (if IsSpace(s[0]) then TrimStart(s) else s[1..])
    requires head == (if IsSpace(s[0]) then " " else [s[0]]) && r == head + tail
    requires forall i :: 0 <= i < |tail| ==> tail[i] == ' ' || (tail[i] in rest && !IsSpace(tail[i]))
    ensures forall i :: 0 <= i < |r| ==> r[i] == ' ' || (r[i] in s && !IsSpace(r[i]))
  {
    forall i | 0 <= i < |r|
      ensures r[i] == ' ' || (r[i] in s && !IsSpace(r[i]))
    {
      if i > 0 {
        assert r[i] == tail[i - 1];
        assert tail[i - 1] in rest ==> tail[i - 1] in s;
      }
    }
  }

  /** One step of CollapseWhitespace never puts two blanks side by side. */
  lemma CollapseStepBlanks(s: string, rest: string, head: string, tail: string, r: string)
    requires s != [] && rest == (if IsSpace(s[0]) then TrimStart(s) else s[1..])
    requires head == (if IsSpace(s[0]) then " " else [s[0]]) && r == head + tail
    requires forall i :: 0 <= i < |tail| - 1 ==> !(tail[i] == ' ' && tail[i + 1] == ' ')
    requires tail != [] ==> rest != [] && (tail[0] == ' ' <==> IsSpace(rest[0]))
    ensures forall i :: 0 <= i < |r| - 1 ==> !(r[i] == ' ' && r[i + 1] == ' ')
  {
    forall i | 0 <= i < |r| - 1
      ensures !(r[i] == ' ' && r[i + 1] == ' ')
    {
      if i > 0 {
        assert r[i] == tail[i - 1] && r[i + 1] == tail[i];
      } else if IsSpace(s[0]) {
        assert r[1] == tail[0];
      }
    }
  }

  /** Collapsing whitespace keeps every non-blank character, in order. */
  lemma {:induction false} FilterCollapseWhitespace(s: string, keep: char -> bool)
    requires forall c :: IsSpace(c) ==> !keep(c)
    ensures Filter(CollapseWhitespace(s), keep) == Filter(s, keep)
    decreases |s|
  {
    if s == [] {
    } else if IsSpace(s[0]) {
      var t := TrimStart(s);
      FilterCollapseWhitespace(t, keep);
      FilterTrimStart(s, keep);
      var r := " " + CollapseWhitespace(t);
      assert r[0] == ' ' && r[1..] == CollapseWhitespace(t);
    } else {
      FilterCollapseWhitespace(s[1..], keep);
      var r := [s[0]] + CollapseWhitespace(s[1..]);
      assert r[0] == s[0] && r[1..] == CollapseWhitespace(s[1..]);
    }
  }

  lemma {:induction false} RemoveAllAbsent(s: string, pat: string)
    requires |pat| == 1 && pat[0] !in s
    ensures RemoveAll(s, pat) == s
    decreases |s|
  {
    if |s| >= 1 {
      var rest := s[1..];
      assert s[..1] != pat by {
        assert s[..1][0] == s[0] && s[0] in s;
      }
      RemoveAllAbsent(rest, pat);
      assert RemoveAll(s, pat) == [s[0]] + RemoveAll(rest, pat);
      assert s == [s[0]] + rest;
    }
  }

  /** Each whitespace character of s is a blank followed by a non-whitespace one. */
  predicate SingleSpaced(s: string) {
    forall j :: 0 <= j < |s| && IsSpace(s[j]) ==> s[j] == ' ' && j + 1 < |s| && !IsSpace(s[j + 1])
  }

  /** Collapsing leaves single-spaced text as it is. */
  lemma {:induction false} CollapseSingleSpaced(s: string)
    requires SingleSpaced(s)
    ensures CollapseWhitespace(s) == s
    decreases |s|
  {
    if s != [] {
      assert SingleSpaced(s[1..]) by {
        forall j | 0 <= j < |s[1..]| && IsSpace(s[1..][j])
          ensures s[1..][j] == ' ' && j + 1 < |s[1..]| && !IsSpace(s[1..][j + 1])
        {
          assert s[1..][j] == s[j + 1];
          assert j + 2 < |s| ==> s[1..][j + 1] == s[j + 2];
        }
      }
      CollapseSingleSpaced(s[1..]);
      if IsSpace(s[0]) {
        assert s[1..] != [] && !IsSpace(s[1..][0]);
        assert TrimStart(s) == TrimStart(s[1..]) == s[1..];
        assert s == " " + s[1..];
      } else {
        assert s == [s[0]] + s[1..];
      }
    }
  }

  lemma {:induction false} ContainsAppend(t: string, u: string, q: string)
    requires Contains(t, q)
    ensures Contains(t + u, q)
    decreases |t|
  {
    if !StartsWith(t, q) {
      ContainsAppend(t[1..], u, q);
      assert (t + u)[1..] == t[1..] + u;
    } else {
      assert (t + u)[..|q|] == t[..|q|];
    }
  }

  /** A text contains each of its suffixes. */
  lemma {:induction false} ContainsSuffix(a: string, b: string)
    ensures Contains(a + b, b)
    decreases |a|
  {
    if a == [] {
      assert a + b == b && (a + b)[..|b|] == b;
    } else {
      ContainsSuffix(a[1..], b);
      assert (a + b)[1..] == a[1..] + b;
    }
  }

  /** `in` is transitive: a text that contains p contains everything p contains. */
  lemma {:induction false} ContainsTransitive(s: string, p: string, q: string)
    requires Contains(s, p) && Contains(p, q)
    ensures Contains(s, q)
    decreases |s|
  {
    if StartsWith(s, p) {
      assert s == p + s[|p|..];
      ContainsAppend(p, s[|p|..], q);
    } else {
      ContainsTransitive(s[1..], p, q);
    }
  }

  lemma {:induction false} ContainsWitness(s: string, p: string, i: nat)
    requires i + |p| <= |s| && s[i..i + |p|] == p
    ensures Contains(s, p)
    decreases i
  {
    if i > 0 {
      assert s[1..][i - 1..i - 1 + |p|] == p;
      ContainsWitness(s[1..], p, i - 1);
    }
  }

  /** Every two adjacent characters of s form one of the given pairs. */
  predicate AdjacentPairsIn(s: string, pairs: set<(char, char)>) {
    forall j :: 0 <= j && j + 1 < |s| ==> (s[j], s[j + 1]) in pairs
  }

  /** Two adjacent characters of p that never occur side by side in s rule p out as a
      substring of s. */
  lemma {:induction false} ForeignPairNotContained(s: string, p: string, k: nat, pairs: set<(char, char)>)
    requires k + 1 < |p| && (p[k], p[k + 1]) !in pairs
    requires AdjacentPairsIn(s, pairs)
    ensures !Contains(s, p)
    decreases |s|
  {
    if |p| <= |s| {
      assert (s[k], s[k + 1]) in pairs;
      assert s[..|p|][k] == s[k] && s[..|p|][k + 1] == s[k + 1];
    }
    if s != [] {
      assert AdjacentPairsIn(s[1..], pairs) by {
        forall j | 0 <= j && j + 1 < |s[1..]|
          ensures (s[1..][j], s[1..][j + 1]) in pairs
        {
          assert s[1..][j] == s[j + 1] && s[1..][j + 1] == s[j + 2];
        }
      }
      ForeignPairNotContained(s[1..], p, k, pairs);
    }
  }

  /** Deleting a one-character pattern works piecewise. */
  lemma {:induction false} RemoveAllCharAppend(a: string, b: string, pat: string)
    requires |pat| == 1
    ensures RemoveAll(a + b, pat) == RemoveAll(a, pat) + RemoveAll(b, pat)
    decreases |a|
  {
    if a == [] {
      assert a + b == b;
    } else {
      var s := a + b;
      assert s[..1] == a[..1] && s[0] == a[0];
      assert s[1..] == a[1..] + b;
      var head: string := if a[..1] == pat then [] else [a[0]];
      assert RemoveAll(a, pat) == head + RemoveAll(a[1..], pat);
      assert RemoveAll(s, pat) == head + RemoveAll(a[1..] + b, pat);
      RemoveAllCharAppend(a[1..], b, pat);
      AppendAssoc(head, RemoveAll(a[1..], pat), RemoveAll(b, pat));
    }
  }

  lemma {:induction false} CollapseTrailingBlank(a: string)
    requires NoSpace(a)
    ensures CollapseWhitespace(a + " ") == a + " "
    decreases |a|
  {
    if a == [] {
      assert a + " " == " " && TrimStart(" ") == "";
    } else {
      assert (a + " ")[0] == a[0];
      assert (a + " ")[1..] == a[1..] + " ";
      CollapseTrailingBlank(a[1..]);
    }
  }

  /** Every character of s is whitespace. */
  predicate AllSpace(s: string) {
    forall i :: 0 <= i < |s| ==> IsSpace(s[i])
  }

  lemma {:induction false} TrimStartSkipsSpace(a: string, s: string)
    requires AllSpace(a)
    ensures TrimStart(a + s) == TrimStart(s)
    decreases |a|
  {
    if a == [] {
      assert a + s == s;
    } else {
      assert (a + s)[0] == a[0] && (a + s)[1..] == a[1..] + s;
      TrimStartSkipsSpace(a[1..], s);
    }
  }

  /** Leading whitespace does not change the words. */
  lemma SplitSkipsLeadingSpace(a: string, s: string)
    requires AllSpace(a)
    ensures Split(a + s) == Split(s)
  {
    TrimStartSkipsSpace(a, s);
  }

  /** A whitespace-free run followed by nothing or by whitespace is a whole word. */
  lemma {:induction false} WordBeforeSpace(w: string, y: string)
    requires forall i :: 0 <= i < |w| ==> !IsSpace(w[i])
    requires y == [] || IsSpace(y[0])
    ensures Word(w + y) == w
    decreases |w|
  {
    if w == [] {
      assert w + y == y;
    } else {
      assert (w + y)[0] == w[0] && (w + y)[1..] == w[1..] + y;
      WordBeforeSpace(w[1..], y);
    }
  }

  /** The words of a word followed by whitespace-led text. */
  lemma SplitWord(w: string, y: string)
    requires w != [] && forall i :: 0 <= i < |w| ==> !IsSpace(w[i])
    requires y == [] || IsSpace(y[0])
    ensures Split(w + y) == [w] + Split(y)
  {
    WordBeforeSpace(w, y);
    assert (w + y)[0] == w[0];
    assert (w + y)[|w|..] == y;
  }

  /** Collapsing leaves a whitespace-free run as it is. */
  lemma {:induction false} CollapseAfterWord(w: string, y: string)
    requires forall i :: 0 <= i < |w| ==> !IsSpace(w[i])
    ensures CollapseWhitespace(w + y) == w + CollapseWhitespace(y)
    decreases |w|
  {
    if w == [] {
      assert w + y == y;
    } else {
      assert (w + y)[0] == w[0] && (w + y)[1..] == w[1..] + y;
      CollapseAfterWord(w[1..], y);
      assert w == [w[0]] + w[1..];
      AppendAssoc([w[0]], w[1..], CollapseWhitespace(y));
    }
  }

  /** Trimming leading whitespace shortens a whitespace-led text. */
  lemma TrimStartShortens(s: string)
    requires s != [] && IsSpace(s[0])
    ensures |TrimStart(s)| < |s|
    ensures Split(TrimStart(s)) == Split(s)
  {
    var t := TrimStart(s);
    assert s == s[..|s| - |t|] + t;
    SplitSkipsLeadingSpace(s[..|s| - |t|], t);
    assert TrimStart(t) == t;
  }

  /** A whitespace run at the front collapses to one blank. */
  lemma CollapseLeadingRun(s: string)
    requires s != [] && IsSpace(s[0])
    ensures CollapseWhitespace(s) == " " + CollapseWhitespace(TrimStart(s))
  {
  }

  /** The words of a text x that is a blank followed by y. */
  lemma SplitSkipsBlankAt(x: string, y: string)
    requires x == " " + y
    ensures Split(x) == Split(y)
  {
    SplitSkipsLeadingSpace(" ", y);
  }

  lemma CollapseSpaceLed(s: string)
    requires s != [] && IsSpace(s[0])
    requires Split(CollapseWhitespace(TrimStart(s))) == Split(TrimStart(s))
    ensures Split(CollapseWhitespace(s)) == Split(s)
  {
    CollapseLeadingRun(s);
    SplitSkipsBlankAt(CollapseWhitespace(s), CollapseWhitespace(TrimStart(s)));
    TrimStartShortens(s);
  }

  lemma CollapseWordThenRest(w: string, y: string)
    requires w != [] && forall i :: 0 <= i < |w| ==> !IsSpace(w[i])
    requires y == [] || IsSpace(y[0])
    requires Split(CollapseWhitespace(y)) == Split(y)
    ensures Split(CollapseWhitespace(w + y)) == Split(w + y)
  {
    CollapseAfterWord(w, y);
    SplitWordAt(w + y, w, y);
    SplitWordAt(CollapseWhitespace(w + y), w, CollapseWhitespace(y));
  }

  /** A text that starts with a word is that word and a rest that is empty or starts
      with whitespace. */
  lemma WordLed(s: string) returns (w: string, y: string)
    requires s != [] && !IsSpace(s[0])
    ensures w == Word(s) && y == s[|Word(s)|..] && s == w + y
    ensures w != [] && (y == [] || IsSpace(y[0]))
  {
    w := Word(s);
    y := s[|w|..];
  }

  lemma CollapseWordLed(s: string)
    requires s != [] && !IsSpace(s[0])
    requires Split(CollapseWhitespace(s[|Word(s)|..])) == Split(s[|Word(s)|..])
    ensures Split(CollapseWhitespace(s)) == Split(s)
  {
    var w, y := WordLed(s);
    CollapseWordThenRest(w, y);
  }

  /** Collapsing whitespace keeps the words: str.split() sees the same list, so every
      whitespace run between two words has become a blank rather than vanished. */
  lemma {:induction false} SplitCollapseWhitespace(s: string)
    ensures Split(CollapseWhitespace(s)) == Split(s)
    decreases |s|
  {
    if s == [] {
    } else if IsSpace(s[0]) {
      TrimStartShortens(s);
      SplitCollapseWhitespace(TrimStart(s));
      CollapseSpaceLed(s);
    } else {
      SplitCollapseWhitespace(s[|Word(s)|..]);
      CollapseWordLed(s);
    }
  }

  /** The words of a text that starts with a word. */
  lemma SplitWordLed(t: string)
    requires t != [] && !IsSpace(t[0])
    ensures |Word(t)| > 0
    ensures Split(t) == [Word(t)] + Split(t[|Word(t)|..])
  {
  }

  lemma SpaceLedAppend(y: string, b: string)
    requires y == [] || IsSpace(y[0])
    requires b == [] || IsSpace(b[0])
    ensures y + b == [] || IsSpace((y + b)[0])
  {
    if y == [] {
      assert y + b == b;
    }
  }

  /** The words of a text x that is a word w followed by whitespace-led text y. */
  lemma SplitWordAt(x: string, w: string, y: string)
    requires x == w + y
    requires w != [] && forall i :: 0 <= i < |w| ==> !IsSpace(w[i])
    requires y == [] || IsSpace(y[0])
    ensures Split(x) == [w] + Split(y)
  {
    SplitWord(w, y);
  }

  lemma TrailingSpaceWordLed(t: string, b: string)
    requires b == [] || IsSpace(b[0])
    requires t != [] && !IsSpace(t[0])
    requires Split(t[|Word(t)|..] + b) == Split(t[|Word(t)|..])
    ensures Split(t + b) == Split(t)
  {
    var w, y := WordLed(t);
    SpaceLedAppend(y, b);
    AppendAssoc(w, y, b);
    SplitWordAt(t, w, y);
    SplitWordAt(t + b, w, y + b);
  }

  /** The words of s + b are those of s's trimmed text followed by b. */
  lemma SplitFromTrimmed(s: string, b: string)
    ensures Split(s + b) == Split(TrimStart(s) + b)
    ensures Split(s) == Split(TrimStart(s))
  {
    var t := TrimStart(s);
    var a := TrimStartPadding(s);
    AppendAssoc(a, t, b);
    SplitSkipsLeadingSpaceAt(s + b, a, t + b);
    SplitSkipsLeadingSpaceAt(s, a, t);
  }

  lemma SplitSkipsLeadingSpaceAt(x: string, a: string, y: string)
    requires AllSpace(a) && x == a + y
    ensures Split(x) == Split(y)
  {
    SplitSkipsLeadingSpace(a, y);
  }

  /** Trailing whitespace does not change the words. */
  lemma {:induction false} SplitSkipsTrailingSpace(s: string, b: string)
    requires AllSpace(b)
    ensures Split(s + b) == Split(s)
    decreases |s|
  {
    var t := TrimStart(s);
    SplitFromTrimmed(s, b);
    if t == [] {
      SplitOfSpace(b);
    } else {
      SplitWordLed(t);
      SplitSkipsTrailingSpace(t[|Word(t)|..], b);
      assert b == [] || IsSpace(b[0]);
      TrailingSpaceWordLed(t, b);
    }
  }

  /** Whitespace alone has no words. */
  lemma SplitOfSpace(b: string)
    requires AllSpace(b)
    ensures Split(b) == []
  {
    TrimStartSkipsSpace(b, []);
    assert b + [] == b;
  }

  /** Whitespace on either side does not change the words. */
  lemma SplitSkipsPadding(a: string, x: string, b: string)
    requires AllSpace(a) && AllSpace(b)
    ensures Split(a + x + b) == Split(x)
  {
    assert a + x + b == a + (x + b);
    SplitSkipsLeadingSpace(a, x + b);
    SplitSkipsTrailingSpace(x, b);
  }

  /** Deleting a non-whitespace character leaves whitespace padding as it is. */
  lemma RemoveAllPadded(a: string, x: string, b: string, pat: string)
    requires |pat| == 1 && !IsSpace(pat[0]) && AllSpace(a) && AllSpace(b)
    ensures RemoveAll(a + x + b, pat) == a + RemoveAll(x, pat) + b
  {
    RemoveAllCharAppend(a + x, b, pat);
    RemoveAllCharAppend(a, x, pat);
    assert pat[0] !in a && pat[0] !in b;
    RemoveAllAbsent(a, pat);
    RemoveAllAbsent(b, pat);
  }

  /** s is its stripped text with whitespace on either side. */
  lemma StripPadding(s: string) returns (a: string, b: string)
    ensures AllSpace(a) && AllSpace(b) && s == a + Strip(s) + b
  {
    b := TrimEndPadding(s);
    a := TrimStartPadding(TrimEnd(s));
    assert Strip(s) == TrimStart(TrimEnd(s));
  }

  lemma TrimEndPadding(s: string) returns (b: string)
    ensures AllSpace(b) && s == TrimEnd(s) + b
  {
    var t := TrimEnd(s);
    b := s[|t|..];
    forall i | 0 <= i < |b| ensures IsSpace(b[i]) {
      assert b[i] == s[|t| + i];
    }
  }

  lemma TrimStartPadding(t: string) returns (a: string)
    ensures AllSpace(a) && t == a + TrimStart(t)
  {
    var r := TrimStart(t);
    var k := |t| - |r|;
    a := t[..k];
    assert r == t[k..];
    assert t == t[..k] + t[k..];
    forall i | 0 <= i < |a| ensures IsSpace(a[i]) {
      assert a[i] == t[i];
    }
  }

  lemma StripUntrimmable(s: string)
    requires s == [] || (!IsSpace(s[0]) && !IsSpace(s[|s| - 1]))
    ensures Strip(s) == s
  {
  }

  /** A worked case of Strip: " TCS " loses one blank at each end. */
  lemma StripPaddedTcs()
    ensures Strip(" TCS ") == "TCS"
  {
    TrimEndPaddedTcs();
    TrimStartPaddedTcs();
  }

  lemma TrimEndPaddedTcs()
    ensures TrimEnd(" TCS ") == " TCS"
  {
    assert " TCS "[..4] == " TCS";
  }

  lemma TrimStartPaddedTcs()
    ensures TrimStart(" TCS") == "TCS"
  {
    assert " TCS"[1..] == "TCS";
  }
}

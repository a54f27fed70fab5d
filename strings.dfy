/**
 * The few `str` operations of Rust's standard library that the extractor and
 * the suffix-list parser rely on: `starts_with`, `split(char)`, `join`,
 * `trim_start_matches`, `split(&str).next()`, `lines` and `trim`.
 */
module Strings {

  /** `s.starts_with(p)` */
  predicate StartsWith(s: string, p: string) {
    |p| <= |s| && s[..|p|] == p
  }

  // ---------------------------------------------------------------------
  // split('.') and join(".")
  // ---------------------------------------------------------------------

  /** `segs.join(sep)`: the pieces with one separator between neighbours. */
  function Join(segs: seq<string>, sep: char): string
  {
    if |segs| == 0 then ""
    else if |segs| == 1 then segs[0]
    else segs[0] + [sep] + Join(segs[1..], sep)
  }

  /** Position of the first `c` in `s`. */
  function IndexOf(s: string, c: char): (i: nat)
    requires c in s
    ensures i < |s| && s[i] == c && c !in s[..i]
  {
    if s[0] == c then 0 else 1 + IndexOf(s[1..], c)
  }

  /** The first `c` in `s` is at `i` when `s[i]` is one and none comes earlier. */
  lemma {:induction false} IndexOfIs(s: string, c: char, i: nat)
    requires i < |s| && s[i] == c && c !in s[..i]
    ensures IndexOf(s, c) == i
  {
    if i > 0 {
      assert s[0] in s[..i];
      assert s[1..][..i - 1] == s[..i][1..];
      IndexOfIs(s[1..], c, i - 1);
    }
  }

  /**
   * `s.split(sep)`: the maximal separator-free pieces, in order. An empty
   * string gives one empty piece, and two adjacent separators give an empty
   * piece between them; nothing is dropped.
   */
  function Split(s: string, sep: char): (r: seq<string>)
    ensures |r| >= 1
    ensures forall k :: 0 <= k < |r| ==> sep !in r[k]
    ensures Join(r, sep) == s
    decreases |s|
  {
    if sep !in s then [s]
    else
      var i := IndexOf(s, sep);
      var rest := Split(s[i + 1..], sep);
      assert ([s[..i]] + rest)[1..] == rest;
      assert s == s[..i] + [sep] + s[i + 1..];
      [s[..i]] + rest
  }

  /** Splitting undoes joining, as long as no piece holds the separator. */
  lemma {:induction false} SplitOfJoin(segs: seq<string>, sep: char)
    requires |segs| >= 1
    requires forall k :: 0 <= k < |segs| ==> sep !in segs[k]
    ensures Split(Join(segs, sep), sep) == segs
  {
    if |segs| == 1 {
    } else {
      var s := Join(segs, sep);
      assert sep !in segs[0];
      SplitOfJoin(segs[1..], sep);
      var i := |segs[0]|;
      assert s[i] == sep;
      assert s[..i] == segs[0];
      IndexOfIs(s, sep, i);
      assert s[i + 1..] == Join(segs[1..], sep);
      assert [segs[0]] + segs[1..] == segs;
    }
  }

  /** Joining a split point back together: `a.b.c` is `a.b` + `.` + `c`. */
  lemma {:induction false} JoinSplitAt(segs: seq<string>, k: nat, sep: char)
    requires 0 < k < |segs|
    ensures Join(segs[..k], sep) + [sep] + Join(segs[k..], sep) == Join(segs, sep)
  {
    if k == 1 {
      assert segs[..1] == [segs[0]];
      assert segs[1..] == segs[k..];
    } else {
      JoinSplitAt(segs[1..], k - 1, sep);
      assert segs[1..][..k - 1] == segs[..k][1..];
      assert segs[1..][k - 1..] == segs[k..];
    }
  }

  /** The pieces before `k - 1`, piece `k - 1` and the pieces from `k`, joined back together. */
  lemma JoinAround(segs: seq<string>, k: nat, sep: char)
    requires 1 <= k < |segs|
    ensures k == 1 ==> segs[0] + [sep] + Join(segs[1..], sep) == Join(segs, sep)
    ensures k > 1 ==> Join(segs[..k - 1], sep) + [sep] + segs[k - 1] + [sep] + Join(segs[k..], sep)
                      == Join(segs, sep)
  {
    JoinSplitAt(segs, k, sep);
    if k > 1 {
      JoinSplitAt(segs[..k], k - 1, sep);
      assert segs[..k][..k - 1] == segs[..k - 1];
      assert segs[..k][k - 1..] == [segs[k - 1]];
    } else {
      assert segs[..1] == [segs[0]];
    }
  }

  /** A tail that starts earlier joins into a strictly longer string. */
  lemma JoinTailLonger(segs: seq<string>, j: nat, i: nat, sep: char)
    requires j < i < |segs|
    ensures |Join(segs[j..], sep)| > |Join(segs[i..], sep)|
  {
    var t := segs[j..];
    JoinSplitAt(t, i - j, sep);
    assert t[i - j..] == segs[i..];
  }

  // ---------------------------------------------------------------------
  // trim_start_matches
  // ---------------------------------------------------------------------

  /** `t` is zero or more copies of `p` laid end to end. */
  predicate Repeats(t: string, p: string)
    decreases |t|
  {
    t == [] || (p != [] && StartsWith(t, p) && Repeats(t[|p|..], p))
  }

  /** One more copy of `p` in front of a run of copies is still a run. */
  lemma RepeatsPrepend(s: string, p: string, n: nat)
    requires p != [] && StartsWith(s, p) && |p| <= n <= |s|
    requires Repeats(s[|p|..][..n - |p|], p)
    ensures Repeats(s[..n], p)
  {
    assert s[..n][..|p|] == p;
    assert s[..n][|p|..] == s[|p|..][..n - |p|];
  }

  /**
   * `s.trim_start_matches(p)`: strips every leading repetition of `p`. The
   * result is a suffix of `s`, what was stripped is a run of copies of `p`,
   * and the result no longer starts with `p`.
   */
  function TrimLeftMatches(s: string, p: string): (r: string)
    ensures |r| <= |s| && r == s[|s| - |r|..]
    ensures Repeats(s[..|s| - |r|], p)
    ensures p != [] ==> !StartsWith(r, p)
    decreases |s|
  {
    if p != [] && StartsWith(s, p) then
      var r := TrimLeftMatches(s[|p|..], p);
      RepeatsPrepend(s, p, |s| - |r|);
      assert s[|p|..][|s| - |p| - |r|..] == s[|s| - |r|..];
      r
    else
      assert s[..0] == [];
      s
  }

  // ---------------------------------------------------------------------
  // split(marker).next()
  // ---------------------------------------------------------------------

  /**
   * `s.split(m).next().unwrap_or("")`: the text before the first occurrence
   * of `m`, or the whole text when `m` does not occur.
   */
  function BeforeFirst(s: string, m: string): (r: string)
    ensures StartsWith(s, r)
    ensures r == s || StartsWith(s[|r|..], m)
    ensures forall j :: 0 <= j < |r| ==> !StartsWith(s[j..], m)
    decreases |s|
  {
    if StartsWith(s, m) || s == [] then []
    else
      var r := BeforeFirst(s[1..], m);
      assert forall j :: 1 <= j <= |r| ==> s[j..] == s[1..][j - 1..];
      [s[0]] + r
  }

  // ---------------------------------------------------------------------
  // lines() and trim()
  // ---------------------------------------------------------------------

  /** A line ending `\r\n` loses its `\r` as well as its `\n`. */
  function StripCr(l: string): string {
    if |l| > 0 && l[|l| - 1] == '\r' then l[..|l| - 1] else l
  }

  /**
   * `s.lines()`: the text cut at every `\n` (a `\r` right before it goes
   * too); a final `\n` does not start another, empty, line.
   */
  function Lines(s: string): (r: seq<string>)
    ensures forall k :: 0 <= k < |r| ==> '\n' !in r[k]
    decreases |s|
  {
    if s == [] then []
    else if '\n' !in s then [s]
    else
      var i := IndexOf(s, '\n');
      assert forall c :: c in StripCr(s[..i]) ==> c in s[..i];
      [StripCr(s[..i])] + Lines(s[i + 1..])
  }

  /** Each line followed by its `\n`, as a text file holds them. */
  function Terminated(ls: seq<string>): string {
    if ls == [] then "" else ls[0] + "\n" + Terminated(ls[1..])
  }

  /** Reading back the lines of a text written one line per `\n`. */
  lemma {:induction false} LinesOfTerminated(ls: seq<string>)
    requires forall k :: 0 <= k < |ls| ==> '\n' !in ls[k]
    requires forall k :: 0 <= k < |ls| ==> StripCr(ls[k]) == ls[k]
    ensures Lines(Terminated(ls)) == ls
  {
    if ls != [] {
      var s := Terminated(ls);
      var i := |ls[0]|;
      assert s[i] == '\n';
      assert s[..i] == ls[0];
      IndexOfIs(s, '\n', i);
      assert s[i + 1..] == Terminated(ls[1..]);
      LinesOfTerminated(ls[1..]);
      assert [ls[0]] + ls[1..] == ls;
    }
  }

  /** A line cut at its `\n` is read with its `\r` (if any) dropped, and reading goes on after it. */
  lemma LinesCons(l: string, rest: string)
    requires '\n' !in l
    ensures Lines(l + "\n" + rest) == [StripCr(l)] + Lines(rest)
  {
    var s := l + "\n" + rest;
    var i := |l|;
    assert s[i] == '\n' && s[..i] == l;
    IndexOfIs(s, '\n', i);
    assert s[i + 1..] == rest;
  }

  /** A `\r\n` ending goes as a whole: the line keeps neither character. */
  lemma LinesOfCrLf(l: string, rest: string)
    requires '\n' !in l
    ensures Lines(l + "\r\n" + rest) == [l] + Lines(rest)
  {
    assert l + "\r\n" + rest == (l + "\r") + "\n" + rest;
    assert '\n' !in l + "\r";
    assert StripCr(l + "\r") == l;
    LinesCons(l + "\r", rest);
  }

  /** A last line without its `\n` is still read, and read whole. */
  lemma {:induction false} LinesOfUnterminated(ls: seq<string>, last: string)
    requires forall k :: 0 <= k < |ls| ==> '\n' !in ls[k]
    requires forall k :: 0 <= k < |ls| ==> StripCr(ls[k]) == ls[k]
    requires last != [] && '\n' !in last
    ensures Lines(Terminated(ls) + last) == ls + [last]
  {
    if ls == [] {
      assert Terminated(ls) + last == last;
    } else {
      LinesOfUnterminated(ls[1..], last);
      LinesFirst(ls, last, ls[1..] + [last]);
      ConsAppend(ls, last);
    }
  }

  /** `ls + [x]` seen as its head followed by the rest. */
  lemma ConsAppend<T>(ls: seq<T>, x: T)
    requires ls != []
    ensures ls + [x] == [ls[0]] + (ls[1..] + [x])
  {
  }

  /** One more CR-free line in front of a text whose lines are known. */
  lemma LinesFirst(ls: seq<string>, last: string, rest: seq<string>)
    requires ls != [] && '\n' !in ls[0] && StripCr(ls[0]) == ls[0]
    requires Lines(Terminated(ls[1..]) + last) == rest
    ensures Lines(Terminated(ls) + last) == [ls[0]] + rest
  {
    var t := Terminated(ls[1..]);
    assert Terminated(ls) + last == ls[0] + "\n" + (t + last);
    LinesCons(ls[0], t + last);
  }

  /** Rust's `char::is_whitespace`: the Unicode White_Space property. */
  predicate IsWhitespace(c: char) {
    ('\t' <= c <= '\r') || c == ' ' || c == '\U{85}' || c == '\U{A0}' || c == '\U{1680}'
    || ('\U{2000}' <= c <= '\U{200A}') || c == '\U{2028}' || c == '\U{2029}'
    || c == '\U{202F}' || c == '\U{205F}' || c == '\U{3000}'
  }

  /** `s.trim_start()` */
  function TrimStart(s: string): (r: string)
    ensures |r| <= |s| && r == s[|s| - |r|..]
    ensures forall k :: 0 <= k < |s| - |r| ==> IsWhitespace(s[k])
    ensures r == [] || !IsWhitespace(r[0])
    decreases |s|
  {
    if s != [] && IsWhitespace(s[0]) then TrimStart(s[1..]) else s
  }

  /** A string of whitespace only has nothing left after `trim_start`. */
  lemma {:induction false} TrimStartBlank(s: string)
    requires forall k :: 0 <= k < |s| ==> IsWhitespace(s[k])
    ensures TrimStart(s) == []
  {
    if s != [] {
      TrimStartBlank(s[1..]);
    }
  }

  /** `s.trim_end()` */
  function TrimEnd(s: string): (r: string)
    ensures |r| <= |s| && r == s[..|r|]
    ensures forall k :: |r| <= k < |s| ==> IsWhitespace(s[k])
    ensures r == [] || !IsWhitespace(r[|r| - 1])
    decreases |s|
  {
    if s != [] && IsWhitespace(s[|s| - 1]) then TrimEnd(s[..|s| - 1]) else s
  }

  /** `r` is `s` from index `i` on, less whitespace at both ends. */
  predicate WhitespaceAround(s: string, i: nat, r: string) {
    && i + |r| <= |s| && r == s[i..i + |r|]
    && (forall k :: 0 <= k < i ==> IsWhitespace(s[k]))
    && (forall k :: i + |r| <= k < |s| ==> IsWhitespace(s[k]))
  }

  /**
   * `s.trim()`: the slice of `s` left after removing whitespace from both
   * ends; it neither starts nor ends with whitespace.
   */
  function Trim(s: string): (r: string)
    ensures exists i :: WhitespaceAround(s, i, r)
    ensures r == [] || (!IsWhitespace(r[0]) && !IsWhitespace(r[|r| - 1]))
  {
    var t := TrimStart(s);
    var r := TrimEnd(t);
    TrimBothEnds(s, t, r);
    r
  }

  /** Whitespace cut from the front of `s` and then from the back of what is left. */
  lemma TrimBothEnds(s: string, t: string, r: string)
    requires |t| <= |s| && t == s[|s| - |t|..]
    requires forall k :: 0 <= k < |s| - |t| ==> IsWhitespace(s[k])
    requires |r| <= |t| && r == t[..|r|]
    requires forall k :: |r| <= k < |t| ==> IsWhitespace(t[k])
    ensures WhitespaceAround(s, |s| - |t|, r)
  {
    var i := |s| - |t|;
    assert r == s[i..i + |r|];
    assert forall k :: i + |r| <= k < |s| ==> s[k] == t[k - i];
  }

  /** A string that neither starts nor ends with whitespace is left as it is by `trim`. */
  lemma TrimUnpadded(s: string)
    requires s == [] || (!IsWhitespace(s[0]) && !IsWhitespace(s[|s| - 1]))
    ensures Trim(s) == s
  {
  }

  /** A string of whitespace only trims to the empty string. */
  lemma TrimBlank(s: string)
    requires forall k :: 0 <= k < |s| ==> IsWhitespace(s[k])
    ensures Trim(s) == []
  {
    TrimStartBlank(s);
  }
}

/**
 * Reading the text of a Public Suffix List into a rule set
 * (`parse_public_suffix_list` in `src/cache/mod.rs`). Each rule is kept
 * exactly as written, sigils included.
 *
 * The rule token of a line is what `^[.*!]*\w\S*` matches at the start of the
 * trimmed line. `\w` can never match `.`, `*` or `!`, and neither can match
 * whitespace, so the match is found without backtracking: skip the run of
 * sigils, require a word character, then take everything up to the first
 * whitespace.
 */
module SuffixList {
  import opened Wrappers
  import opened Strings
  import opened Errors

  /** Where the private-domains section of the list begins. */
  const PrivateDomainsMarker: string := "// ===BEGIN PRIVATE DOMAINS==="

  // ---------------------------------------------------------------------
  // The token pattern `[.*!]*\w\S*`
  // ---------------------------------------------------------------------

  /** The characters of `[.*!]`. */
  predicate IsSigil(c: char) {
    c == '.' || c == '*' || c == '!'
  }

  /**
   * `\w`: ASCII letters, digits and `_`, and every non-ASCII character that
   * is not whitespace.
   */
  predicate IsWordChar(c: char) {
    ('a' <= c <= 'z') || ('A' <= c <= 'Z') || ('0' <= c <= '9') || c == '_'
    || (c >= '\U{80}' && !IsWhitespace(c))
  }

  /** `t` matches the pattern with its `\w` at index `n`. */
  predicate ShapedAt(t: string, n: nat) {
    && n < |t|
    && IsWordChar(t[n])
    && (forall j :: 0 <= j < n ==> IsSigil(t[j]))
    && (forall j :: n < j < |t| ==> !IsWhitespace(t[j]))
  }

  /** `t` as a whole matches `[.*!]*\w\S*`. */
  ghost predicate RulePattern(t: string) {
    exists n: nat :: ShapedAt(t, n)
  }

  /** The first `k` characters of `line` match the pattern. */
  ghost predicate MatchesPrefix(line: string, k: nat) {
    k <= |line| && RulePattern(line[..k])
  }

  /** Length of the leading run of sigils. */
  function SigilRun(s: string): (n: nat)
    ensures n <= |s|
    ensures forall j :: 0 <= j < n ==> IsSigil(s[j])
    ensures n == |s| || !IsSigil(s[n])
    decreases |s|
  {
    if s != [] && IsSigil(s[0]) then 1 + SigilRun(s[1..]) else 0
  }

  /** Index of the first whitespace character, or the length when there is none. */
  function FirstWhitespace(s: string): (n: nat)
    ensures n <= |s|
    ensures forall j :: 0 <= j < n ==> !IsWhitespace(s[j])
    ensures n == |s| || IsWhitespace(s[n])
    decreases |s|
  {
    if s == [] || IsWhitespace(s[0]) then 0 else 1 + FirstWhitespace(s[1..])
  }

  /** No prefix of `s` that reaches past a whitespace at `w` matches the pattern. */
  lemma NoMatchAcrossWhitespace(s: string, w: nat, k: nat)
    requires w < k <= |s| && IsWhitespace(s[w])
    ensures !MatchesPrefix(s, k)
  {
    forall n: nat ensures !ShapedAt(s[..k], n) {
      assert s[..k][w] == s[w];
    }
  }

  /**
   * The `suffix` capture of `PUBLIC_SUFFIX_RE` on a line: the longest prefix
   * of the line that matches the pattern, if any prefix does. The token has
   * no whitespace and runs to the first whitespace or the end of the line.
   */
  function Token(line: string): (r: Option<string>)
    ensures r.Some? ==> StartsWith(line, r.value) && MatchesPrefix(line, |r.value|)
    ensures r.Some? ==> |r.value| == |line| || IsWhitespace(line[|r.value|])
    ensures r.Some? ==> forall j :: 0 <= j < |r.value| ==> !IsWhitespace(r.value[j])
    ensures r.Some? ==> forall k: nat :: |r.value| < k ==> !MatchesPrefix(line, k)
    ensures r.None? ==> forall k: nat :: !MatchesPrefix(line, k)
  {
    var n := SigilRun(line);
    if n < |line| && IsWordChar(line[n]) then
      var w := FirstWhitespace(line);
      assert forall j :: 0 <= j <= n ==> !IsWhitespace(line[j]);
      assert n < w;
      var t := line[..w];
      assert ShapedAt(t, n);
      assert t == line[..|t|];
      forall k: nat | w < k ensures !MatchesPrefix(line, k) {
        if k <= |line| {
          NoMatchAcrossWhitespace(line, w, k);
        }
      }
      Some(t)
    else
      assert forall k: nat :: !MatchesPrefix(line, k) by {
        forall k, m: nat | 0 <= k <= |line| ensures !ShapedAt(line[..k], m) {
          if m < k && m < n {
            assert line[..k][m] == line[m];
          } else if m < k && m > n {
            assert line[..k][n] == line[n];
          } else if m < k {
            assert line[..k][m] == line[n];
          }
        }
      }
      None
  }

  // ---------------------------------------------------------------------
  // Lines and the list
  // ---------------------------------------------------------------------

  /**
   * `t` stands at index `i` of `line` with only whitespace before it, and is
   * followed by whitespace or by the end of the line.
   */
  predicate StandsAt(line: string, i: nat, t: string) {
    && i + |t| <= |line| && line[i..i + |t|] == t
    && (forall j :: 0 <= j < i ==> IsWhitespace(line[j]))
    && (i + |t| == |line| || IsWhitespace(line[i + |t|]))
  }

  /** What one line of the list contributes: the token of its trimmed text, unless it is a comment. */
  function LineRule(line: string): Option<string>
  {
    if StartsWith(line, "//") then None else Token(Trim(line))
  }

  /**
   * A `//` comment line and a blank line contribute nothing; any other line
   * contributes at most one rule, which matches the pattern, holds no
   * whitespace, and is the first word of the line, running to the next
   * whitespace or the end.
   */
  lemma LineRuleShape(line: string)
    ensures StartsWith(line, "//") ==> LineRule(line).None?
    ensures (forall j :: 0 <= j < |line| ==> IsWhitespace(line[j])) ==> LineRule(line).None?
    ensures LineRule(line).Some? ==> RulePattern(LineRule(line).value) && LineRule(line).value != []
    ensures LineRule(line).Some? ==> forall j :: 0 <= j < |LineRule(line).value| ==> !IsWhitespace(LineRule(line).value[j])
    ensures LineRule(line).Some? ==> exists i :: StandsAt(line, i, LineRule(line).value)
  {
    if !StartsWith(line, "//") {
      if forall j :: 0 <= j < |line| ==> IsWhitespace(line[j]) {
        TrimBlank(line);
      }
      var tr := Trim(line);
      var r := Token(tr);
      if r.Some? {
        var i: nat :| WhitespaceAround(line, i, tr);
        StandsInside(line, i, tr, r.value);
      }
    }
  }

  /** A token that starts the trimmed text stands in the untrimmed line where the trimmed text begins. */
  lemma StandsInside(line: string, i: nat, tr: string, t: string)
    requires WhitespaceAround(line, i, tr)
    requires StartsWith(tr, t) && (|t| == |tr| || IsWhitespace(tr[|t|]))
    ensures StandsAt(line, i, t)
  {
    assert line[i..i + |t|] == tr[..|t|];
    if |t| < |tr| {
      assert tr[|t|] == line[i + |t|];
    }
  }

  /** A non-comment line with no rule has no prefix of its trimmed text matching the pattern. */
  lemma NoRuleNoMatch(line: string)
    requires !StartsWith(line, "//") && LineRule(line).None?
    ensures forall k: nat :: !MatchesPrefix(Trim(line), k)
  {
  }

  /** Some line of `lines` has `x` as its rule. */
  ghost predicate Listed(lines: seq<string>, x: string) {
    exists k :: 0 <= k < |lines| && LineRule(lines[k]) == Some(x)
  }

  /** The `filter_map` step: each line's rule, if it has one, in line order. */
  function LineRules(lines: seq<string>): (rs: seq<Option<string>>)
    ensures |rs| == |lines|
    ensures forall k :: 0 <= k < |lines| ==> rs[k] == LineRule(lines[k])
  {
    if lines == [] then [] else [LineRule(lines[0])] + LineRules(lines[1..])
  }

  /** The `collect` step: the rules present, gathered into a set. */
  function Collect(rs: seq<Option<string>>): (r: set<string>)
    ensures forall x :: x in r ==> Some(x) in rs
    ensures forall x :: Some(x) in rs ==> x in r
  {
    if rs == [] then {}
    else
      var rest := Collect(rs[1..]);
      assert forall o :: o in rs <==> o == rs[0] || o in rs[1..];
      match rs[0]
      case Some(x) => {x} + rest
      case None => rest
  }

  /** The rules of a sequence of lines: exactly the rules of its lines. */
  function RulesOf(lines: seq<string>): (r: set<string>)
    ensures forall x :: x in r ==> Listed(lines, x)
    ensures forall x :: Listed(lines, x) ==> x in r
  {
    var rs := LineRules(lines);
    var r := Collect(rs);
    assert forall x :: Some(x) in rs ==> Listed(lines, x) by {
      forall x | Some(x) in rs ensures Listed(lines, x) {
        var k :| 0 <= k < |rs| && rs[k] == Some(x);
      }
    }
    assert forall x :: Listed(lines, x) ==> Some(x) in rs by {
      forall x | Listed(lines, x) ensures Some(x) in rs {
        var k :| 0 <= k < |lines| && LineRule(lines[k]) == Some(x);
        assert rs[k] == Some(x);
      }
    }
    r
  }

  /**
   * The part of the list that is read: all of it when private domains are
   * wanted, otherwise only what comes before the first private-domains
   * marker.
   */
  function ReadText(list: string, privateDomain: bool): (r: string)
    ensures privateDomain ==> r == list
    ensures !privateDomain ==> StartsWith(list, r)
    ensures !privateDomain ==> r == list || StartsWith(list[|r|..], PrivateDomainsMarker)
    ensures !privateDomain ==> forall j :: 0 <= j < |r| ==> !StartsWith(list[j..], PrivateDomainsMarker)
  {
    if privateDomain then list else BeforeFirst(list, PrivateDomainsMarker)
  }

  /**
   * `parse_public_suffix_list`: never fails; a string is a rule exactly when
   * it is the rule of some line of the text read.
   */
  function ParsePublicSuffixList(list: string, privateDomain: bool): (r: Result<set<string>, ErrorKind>)
    ensures r.Ok?
    ensures forall x :: x in r.value ==> Listed(Lines(ReadText(list, privateDomain)), x)
    ensures forall x :: Listed(Lines(ReadText(list, privateDomain)), x) ==> x in r.value
  {
    Ok(RulesOf(Lines(ReadText(list, privateDomain))))
  }

  // ---------------------------------------------------------------------
  // Properties of the parse
  // ---------------------------------------------------------------------

  /**
   * With private domains excluded, a list made of a public section, the
   * marker and a private section parses to the rules of the public section
   * alone, provided the marker does not start anywhere earlier.
   */
  lemma PrivateSectionSkipped(pub: string, priv: string)
    requires forall j :: 0 <= j < |pub| ==> !StartsWith((pub + PrivateDomainsMarker + priv)[j..], PrivateDomainsMarker)
    ensures ReadText(pub + PrivateDomainsMarker + priv, false) == pub
    ensures ParsePublicSuffixList(pub + PrivateDomainsMarker + priv, false) == ParsePublicSuffixList(pub, true)
  {
    var s := pub + PrivateDomainsMarker + priv;
    var r := ReadText(s, false);
    assert s[|pub|..][..|PrivateDomainsMarker|] == PrivateDomainsMarker;
    assert |r| <= |pub|;
    assert r == s || StartsWith(s[|r|..], PrivateDomainsMarker);
    assert |r| == |pub|;
    assert r == s[..|pub|];
    assert s[..|pub|] == pub;
  }

  /** Without the marker in the text, the private-domain flag makes no difference. */
  lemma NoMarkerReadsAll(list: string)
    requires forall j :: 0 <= j <= |list| ==> !StartsWith(list[j..], PrivateDomainsMarker)
    ensures ReadText(list, false) == list
    ensures ParsePublicSuffixList(list, false) == ParsePublicSuffixList(list, true)
  {
    var r := ReadText(list, false);
    assert |r| <= |list| && StartsWith(list, r);
  }

  /**
   * The rules depend only on which lines occur: reordering the lines or
   * repeating one gives the same set.
   */
  lemma {:induction false} SameLinesSameRules(ls1: seq<string>, ls2: seq<string>)
    requires forall l :: l in ls1 <==> l in ls2
    ensures RulesOf(ls1) == RulesOf(ls2)
  {
    forall x | x in RulesOf(ls1) ensures x in RulesOf(ls2) {
      var k :| 0 <= k < |ls1| && LineRule(ls1[k]) == Some(x);
      assert ls1[k] in ls2;
      var k2 :| 0 <= k2 < |ls2| && ls2[k2] == ls1[k];
      assert Listed(ls2, x);
    }
    forall x | x in RulesOf(ls2) ensures x in RulesOf(ls1) {
      var k :| 0 <= k < |ls2| && LineRule(ls2[k]) == Some(x);
      assert ls2[k] in ls1;
      var k1 :| 0 <= k1 < |ls1| && ls1[k1] == ls2[k];
      assert Listed(ls1, x);
    }
  }

  /** A line that is a rule as it stands, with no whitespace around it, is read as exactly that rule. */
  lemma WholeLineIsRule(line: string, n: nat)
    requires ShapedAt(line, n)
    ensures LineRule(line) == Some(line)
  {
    assert forall j :: 0 <= j < |line| ==> !IsWhitespace(line[j]) by {
      forall j | 0 <= j < |line| ensures !IsWhitespace(line[j]) {
        if j < n { assert IsSigil(line[j]); } else if j == n { assert IsWordChar(line[j]); }
      }
    }
    assert line[0] != '/' by { assert IsSigil(line[0]) || IsWordChar(line[0]); }
    TrimUnpadded(line);
    assert SigilRun(line) == n;
    assert FirstWhitespace(line) == |line|;
    assert line[..|line|] == line;
  }
}

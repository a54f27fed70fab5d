/**
 * A small list, written out line by line, read into its rule set.
 */
module SuffixListExamples {
  import opened Wrappers
  import opened Strings
  import opened SuffixList

  /**
   * A comment, a plain rule, a wildcard rule, an exception rule and a blank
   * line: the comment and the blank line contribute nothing, and every rule
   * is kept with its sigils.
   */
  lemma SmallList(lines: seq<string>, list: string)
    requires lines == ["// ICANN", "com", "*.ck", "!www.ck", ""]
    requires list == Terminated(lines)
    ensures ParsePublicSuffixList(list, true) == Ok({"com", "*.ck", "!www.ck"})
  {
    SmallListLines(lines);
    CommentLine(lines[0]);
    RuleLine(lines[1], 0);
    RuleLine(lines[2], 2);
    RuleLine(lines[3], 1);
    BlankLine(lines[4]);
    FiveLines(lines, "com", "*.ck", "!www.ck");
    assert ReadText(list, true) == list;
  }

  /**
   * A `\r\n` line ending and a last line with no line ending at all: both
   * rules are read, neither with a stray `\r`.
   */
  lemma CrLfAndUnterminated(list: string)
    requires list == "com\r\nnet"
    ensures ParsePublicSuffixList(list, true) == Ok({"com", "net"})
  {
    var lines := ["com", "net"];
    CrLfLines(list);
    RuleLine(lines[0], 0);
    RuleLine(lines[1], 0);
    TwoLines(lines, "com", "net");
    assert ReadText(list, true) == list;
  }

  /** The text holds `com` and `net`, without the `\r`. */
  lemma CrLfLines(list: string)
    requires list == "com\r\nnet"
    ensures Lines(list) == ["com", "net"]
  {
    assert list == "com" + "\r\n" + "net";
    LinesOfCrLf("com", "net");
    assert '\n' !in "net";
  }

  /** Two lines whose rules are `a` and `b` give the set of `a` and `b`. */
  lemma TwoLines(lines: seq<string>, a: string, b: string)
    requires |lines| == 2 && LineRule(lines[0]) == Some(a) && LineRule(lines[1]) == Some(b)
    ensures RulesOf(lines) == {a, b}
  {
    var rs := LineRules(lines);
    assert rs[0] == Some(a) && rs[1] == Some(b);
    CollectTwo(rs, a, b);
  }

  /** Collecting those two per-line results. */
  lemma CollectTwo(rs: seq<Option<string>>, a: string, b: string)
    requires |rs| == 2 && rs[0] == Some(a) && rs[1] == Some(b)
    ensures Collect(rs) == {a, b}
  {
    assert rs == [Some(a), Some(b)];
  }

  /** The text holds exactly the five lines. */
  lemma SmallListLines(lines: seq<string>)
    requires lines == ["// ICANN", "com", "*.ck", "!www.ck", ""]
    ensures Lines(Terminated(lines)) == lines
  {
    forall k | 0 <= k < |lines| ensures '\n' !in lines[k] && StripCr(lines[k]) == lines[k] {
    }
    LinesOfTerminated(lines);
  }

  /** A `//` line has no rule. */
  lemma CommentLine(line: string)
    requires line == "// ICANN"
    ensures LineRule(line) == None
  {
    assert line[..2] == "//";
  }

  /** An empty line has no rule. */
  lemma BlankLine(line: string)
    requires line == ""
    ensures LineRule(line) == None
  {
    LineRuleShape(line);
  }

  /** Each rule line is read as itself; `n` is where its word character is. */
  lemma RuleLine(line: string, n: nat)
    requires (line == "com" && n == 0) || (line == "net" && n == 0) || (line == "*.ck" && n == 2) || (line == "!www.ck" && n == 1)
    ensures LineRule(line) == Some(line)
  {
    assert ShapedAt(line, n);
    WholeLineIsRule(line, n);
  }

  /** Five lines whose rules are none, `a`, `b`, `c` and none give the set of `a`, `b` and `c`. */
  lemma FiveLines(lines: seq<string>, a: string, b: string, c: string)
    requires |lines| == 5 && LineRule(lines[0]).None? && LineRule(lines[4]).None?
    requires LineRule(lines[1]) == Some(a) && LineRule(lines[2]) == Some(b) && LineRule(lines[3]) == Some(c)
    ensures RulesOf(lines) == {a, b, c}
  {
    var rs := LineRules(lines);
    assert rs[0] == None && rs[1] == Some(a) && rs[2] == Some(b) && rs[3] == Some(c) && rs[4] == None;
    CollectFive(rs, a, b, c);
  }

  /** Collecting those five per-line results. */
  lemma CollectFive(rs: seq<Option<string>>, a: string, b: string, c: string)
    requires |rs| == 5 && rs[0] == None && rs[1] == Some(a) && rs[2] == Some(b) && rs[3] == Some(c) && rs[4] == None
    ensures Collect(rs) == {a, b, c}
  {
    assert rs == [None, Some(a), Some(b), Some(c), None];
  }
}

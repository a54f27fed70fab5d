/**
 * Worked cases of the suffix scan, on small rule sets written out in full
 * (the real rule set is a snapshot of the Public Suffix List).
 */
module TldExamples {
  import opened Wrappers
  import opened Strings
  import opened Errors
  import opened TldExtract

  /** The labels of a host that is written as `segs` joined by dots. */
  lemma LabelsOf(host: string, segs: seq<string>)
    requires |segs| >= 1 && (forall k :: 0 <= k < |segs| ==> '.' !in segs[k])
    requires host == Join(segs, '.')
    ensures Split(host, '.') == segs
  {
    SplitOfJoin(segs, '.');
  }

  /** The result once the scan is known to stop at a plain (non-punycode) label. */
  lemma Reported(cache: set<string>, host: string, decode: string -> Option<string>, segs: seq<string>,
                 i: nat, sub: Option<string>, dom: string, suf: string)
    requires Split(host, '.') == segs && FirstHit(cache, segs, 0) == Some(i) && 1 <= i
    requires segs[i - 1] == dom && !StartsWith(dom, PunycodePrefix)
    requires i == 1 ==> sub == None
    requires i > 1 ==> sub == Some(Join(segs[..i - 1], '.'))
    requires Join(segs[i..], '.') == suf
    ensures ExtractTripleSpec(cache, host, decode) == Ok(TldResult(dom, sub, Some(suf)))
  {
  }

  /** `forums.news.cnn.com` with the rule `com`: three labels before the suffix. */
  lemma ForumsNewsCnnCom(host: string, decode: string -> Option<string>)
    requires host == "forums.news.cnn.com"
    ensures ExtractTripleSpec({"com"}, host, decode)
            == Ok(NewResult(Some("forums.news"), "cnn", Some("com")))
  {
    var segs := ["forums", "news", "cnn", "com"];
    CnnText();
    LabelsOf(host, segs);
    CnnScan();
    assert segs[..2] == ["forums", "news"] && segs[3..] == ["com"];
    Reported({"com"}, host, decode, segs, 3, Some("forums.news"), "cnn", "com");
  }

  /** The dotted texts of the `forums.news.cnn.com` case. */
  lemma CnnText()
    ensures Join(["forums", "news", "cnn", "com"], '.') == "forums.news.cnn.com"
    ensures Join(["forums", "news"], '.') == "forums.news"
    ensures Join(["com"], '.') == "com"
    ensures !StartsWith("cnn", PunycodePrefix)
  {
  }

  /** The scan of `forums.news.cnn.com` stops at `com`, label 3. */
  lemma CnnScan()
    ensures FirstHit({"com"}, ["forums", "news", "cnn", "com"], 0) == Some(3)
  {
    var segs := ["forums", "news", "cnn", "com"];
    assert segs[1..] == ["news", "cnn", "com"];
    assert segs[2..] == ["cnn", "com"];
    assert segs[3..] == ["com"];
    assert segs[4..] == [];
  }

  /** `forums.bbc.co.uk`: the two-label rule `co.uk` wins over `uk`. */
  lemma ForumsBbcCoUk(host: string, decode: string -> Option<string>)
    requires host == "forums.bbc.co.uk"
    ensures ExtractTripleSpec({"uk", "co.uk"}, host, decode)
            == Ok(NewResult(Some("forums"), "bbc", Some("co.uk")))
  {
    var segs := ["forums", "bbc", "co", "uk"];
    BbcText();
    LabelsOf(host, segs);
    BbcScan();
    assert segs[..1] == ["forums"] && segs[2..] == ["co", "uk"];
    Reported({"uk", "co.uk"}, host, decode, segs, 2, Some("forums"), "bbc", "co.uk");
  }

  /** The dotted texts of the `forums.bbc.co.uk` case. */
  lemma BbcText()
    ensures Join(["forums", "bbc", "co", "uk"], '.') == "forums.bbc.co.uk"
    ensures Join(["forums"], '.') == "forums"
    ensures Join(["co", "uk"], '.') == "co.uk"
    ensures !StartsWith("bbc", PunycodePrefix)
  {
  }

  /** The scan of `forums.bbc.co.uk` stops at `co.uk`, label 2. */
  lemma BbcScan()
    ensures FirstHit({"uk", "co.uk"}, ["forums", "bbc", "co", "uk"], 0) == Some(2)
  {
    var segs := ["forums", "bbc", "co", "uk"];
    assert segs[1..] == ["bbc", "co", "uk"];
    assert segs[2..] == ["co", "uk"];
    assert segs[3..] == ["uk"];
    BbcText();
  }

  /**
   * `www.city.kawasaki.jp` with `*.kawasaki.jp` and `!city.kawasaki.jp`:
   * the exception only vetoes the tail `city.kawasaki.jp`, and the scan
   * goes on until the plain rule `jp`.
   */
  lemma ExceptionFallsThrough(host: string, decode: string -> Option<string>)
    requires host == "www.city.kawasaki.jp"
    ensures ExtractTripleSpec({"jp", "*.kawasaki.jp", "!city.kawasaki.jp"}, host, decode)
            == Ok(NewResult(Some("www.city"), "kawasaki", Some("jp")))
  {
    var segs := ["www", "city", "kawasaki", "jp"];
    KawasakiText();
    LabelsOf(host, segs);
    KawasakiScan();
    assert segs[..2] == ["www", "city"] && segs[3..] == ["jp"];
    Reported({"jp", "*.kawasaki.jp", "!city.kawasaki.jp"}, host, decode, segs, 3, Some("www.city"), "kawasaki", "jp");
  }

  /** The dotted texts of the `www.city.kawasaki.jp` case. */
  lemma KawasakiText()
    ensures Join(["www", "city", "kawasaki", "jp"], '.') == "www.city.kawasaki.jp"
    ensures Join(["www", "city"], '.') == "www.city"
    ensures Join(["city", "kawasaki", "jp"], '.') == "city.kawasaki.jp"
    ensures Join(["jp"], '.') == "jp"
    ensures !StartsWith("kawasaki", PunycodePrefix)
  {
    assert Join(["jp"], '.') == "jp";
    assert Join(["kawasaki", "jp"], '.') == "kawasaki.jp";
    assert "kawasaki"[0] != PunycodePrefix[0];
  }

  /** The scan of `www.city.kawasaki.jp` skips the vetoed label 1 and stops at `jp`, label 3. */
  lemma KawasakiScan()
    ensures FirstHit({"jp", "*.kawasaki.jp", "!city.kawasaki.jp"}, ["www", "city", "kawasaki", "jp"], 0)
            == Some(3)
  {
    var segs := ["www", "city", "kawasaki", "jp"];
    var cache := {"jp", "*.kawasaki.jp", "!city.kawasaki.jp"};
    KawasakiTails(segs);
    KawasakiAt(cache, segs, 0);
    KawasakiAt(cache, segs, 1);
    KawasakiAt(cache, segs, 2);
    KawasakiAt(cache, segs, 3);
    FirstHitIs(cache, segs, 3);
  }

  /** Label by label: only label 3 is a hit, and label 1 is vetoed. */
  lemma KawasakiAt(cache: set<string>, segs: seq<string>, i: nat)
    requires cache == {"jp", "*.kawasaki.jp", "!city.kawasaki.jp"} && i < 4 && |segs| == 4
    requires Join(segs[0..], '.') == "www.city.kawasaki.jp"
    requires Join(segs[1..], '.') == "city.kawasaki.jp"
    requires Join(segs[2..], '.') == "kawasaki.jp"
    requires Join(segs[3..], '.') == "jp" && Join(segs[4..], '.') == ""
    ensures IsHit(cache, segs, i) <==> i == 3
    ensures i == 1 ==> Vetoed(cache, segs, i)
  {
    var tail := Join(segs[i..], '.');
    var wild := "*." + Join(segs[i + 1..], '.');
    var exc := "!" + tail;
    if i == 0 {
      assert wild == "*.city.kawasaki.jp" && exc == "!www.city.kawasaki.jp";
    } else if i == 1 {
      assert exc == "!city.kawasaki.jp";
    } else if i == 2 {
      assert wild == "*.jp" && exc == "!kawasaki.jp";
    } else {
      assert exc == "!jp";
    }
  }

  /** The tails of `www.city.kawasaki.jp` and their dotted texts. */
  lemma KawasakiTails(segs: seq<string>)
    requires segs == ["www", "city", "kawasaki", "jp"]
    ensures Join(segs[0..], '.') == "www.city.kawasaki.jp"
    ensures Join(segs[1..], '.') == "city.kawasaki.jp"
    ensures Join(segs[2..], '.') == "kawasaki.jp"
    ensures Join(segs[3..], '.') == "jp" && Join(segs[4..], '.') == ""
  {
    assert segs[0..] == segs;
    assert segs[1..] == ["city", "kawasaki", "jp"];
    assert segs[2..] == ["kawasaki", "jp"];
    assert segs[3..] == ["jp"];
    assert segs[4..] == [];
    KawasakiText();
  }

  /** The scan stops at `i` when `i` is a hit and no earlier index is. */
  lemma FirstHitIs(cache: set<string>, segs: seq<string>, i: nat)
    requires i < |segs| && IsHit(cache, segs, i)
    requires forall j :: 0 <= j < i ==> !IsHit(cache, segs, j)
    ensures FirstHit(cache, segs, 0) == Some(i)
  {
    var h := FirstHit(cache, segs, 0);
    assert h.Some?;
  }

  /** A host that is itself a rule makes the scan index below label 0. */
  lemma WholeHostIsRule(decode: string -> Option<string>)
    ensures ExtractTripleSpec({"com"}, "com", decode) == Err(Panicked(IndexUnderflow))
  {
    LabelsOf("com", ["com"]);
    WholeHostMatchPanics({"com"}, "com", decode);
  }
}

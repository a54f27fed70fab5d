/**
 * The extractor of `src/lib.rs`: splits a host name into subdomain, domain
 * and public suffix by looking its tails up in a set of Public Suffix List
 * rules. Rules are stored with their sigils (`!` for an exception, `*.` for a
 * wildcard) and looked up by exact string.
 *
 * Two collaborators are outside the model and are passed in as functions:
 * `url::Url::parse` together with its host classification (`parse`), and
 * `idna::punycode::decode_to_string` (`decode`).
 */
module TldExtract {
  import opened Wrappers
  import opened Strings
  import opened Errors

  // ---------------------------------------------------------------------
  // Data
  // ---------------------------------------------------------------------

  /** The "www", "google" and "com" parts of "www.google.com". */
  datatype TldResult = TldResult(domain: string, subdomain: Option<string>, suffix: Option<string>)

  /** `TldResult::new`: note the argument order, subdomain first. */
  function NewResult(subdomain: Option<string>, domain: string, suffix: Option<string>): (r: TldResult)
    ensures r.subdomain == subdomain && r.domain == domain && r.suffix == suffix
  {
    TldResult(domain, subdomain, suffix)
  }

  /** `url::Host`, each address already rendered with `to_string`. */
  datatype Host = Domain(name: string) | Ipv4(address: string) | Ipv6(address: string)

  /** What `Url::parse` followed by `host()` yields for an input. */
  datatype ParsedUrl = Invalid(reason: string) | Parsed(host: Option<Host>)

  /** The extractor holds nothing but its rule set, never changed after `new`. */
  datatype TldExtractor = TldExtractor(tldCache: set<string>)

  /** Labels carrying this prefix are punycode (ASCII-compatible encoding). */
  const PunycodePrefix: string := "xn--"

  // ---------------------------------------------------------------------
  // Specification of the suffix scan
  // ---------------------------------------------------------------------

  /** The tail starting at label `i` has an exception rule. */
  predicate Vetoed(cache: set<string>, segs: seq<string>, i: nat)
    requires i <= |segs|
  {
    "!" + Join(segs[i..], '.') in cache
  }

  /** The tail starting at label `i` is a rule, or its wildcard form is. */
  predicate Matches(cache: set<string>, segs: seq<string>, i: nat)
    requires i < |segs|
  {
    Join(segs[i..], '.') in cache || "*." + Join(segs[i + 1..], '.') in cache
  }

  /** Index `i` ends the scan: a match that no exception vetoes. */
  predicate IsHit(cache: set<string>, segs: seq<string>, i: nat)
    requires i < |segs|
  {
    !Vetoed(cache, segs, i) && Matches(cache, segs, i)
  }

  /** The smallest hit at or after `from`, if there is one. */
  function FirstHit(cache: set<string>, segs: seq<string>, from: nat): (r: Option<nat>)
    requires from <= |segs|
    ensures r.Some? ==> from <= r.value < |segs| && IsHit(cache, segs, r.value)
    ensures r.Some? ==> forall j :: from <= j < r.value ==> !IsHit(cache, segs, j)
    ensures r.None? <==> forall j :: from <= j < |segs| ==> !IsHit(cache, segs, j)
    decreases |segs| - from
  {
    if from == |segs| then None
    else if IsHit(cache, segs, from) then Some(from)
    else FirstHit(cache, segs, from + 1)
  }

  /** The domain label as reported: punycode-decoded when it has the prefix. */
  function DecodeLabel(seg: string, decode: string -> Option<string>): Option<string>
  {
    if StartsWith(seg, PunycodePrefix) then decode(TrimLeftMatches(seg, PunycodePrefix))
    else Some(seg)
  }

  /** What `extract_triple` does, stated through the first hit of the scan. */
  function ExtractTripleSpec(cache: set<string>, host: string, decode: string -> Option<string>)
    : Result<TldResult, Failure>
  {
    var segs := Split(host, '.');
    match FirstHit(cache, segs, 0)
    case None => Err(Panicked(ExpectFailed(EmptyDomainMessage)))
    case Some(i) =>
      if i == 0 then Err(Panicked(IndexUnderflow))
      else match DecodeLabel(segs[i - 1], decode)
        case None => Err(Raised(Msg(PunycodeErrorMessage)))
        case Some(d) =>
          Ok(TldResult(d, if i == 1 then None else Some(Join(segs[..i - 1], '.')),
                       Some(Join(segs[i..], '.'))))
  }

  // ---------------------------------------------------------------------
  // The operations
  // ---------------------------------------------------------------------

  /**
   * `TldExtractor::extract_triple`: scan the tails of the host from the
   * longest down; skip a tail with an exception rule; stop at the first tail
   * that is a rule or has a wildcard rule.
   */
  method ExtractTriple(ext: TldExtractor, host: string, decode: string -> Option<string>)
    returns (r: Result<TldResult, Failure>)
    ensures r == ExtractTripleSpec(ext.tldCache, host, decode)
  {
    var segs := Split(host, '.');
    var suffix: Option<string> := None;
    var subdomain: Option<string> := None;
    var domain: Option<string> := None;
    for i := 0 to |segs|
      invariant FirstHit(ext.tldCache, segs, i) == FirstHit(ext.tldCache, segs, 0)
      invariant suffix == None && subdomain == None && domain == None
    {
      var piece := Join(segs[i..], '.');
      var exceptionPiece := "!" + piece;
      var wildcardPiece := "*." + Join(segs[i + 1..], '.');
      if exceptionPiece in ext.tldCache {
        continue;
      }
      if piece in ext.tldCache || wildcardPiece in ext.tldCache {
        suffix := Some(piece);
        if i == 0 {
          return Err(Panicked(IndexUnderflow));
        }
        var seg := segs[i - 1];
        if StartsWith(seg, PunycodePrefix) {
          var decoded := decode(TrimLeftMatches(seg, PunycodePrefix));
          if decoded.None? {
            return Err(Raised(Msg(PunycodeErrorMessage)));
          }
          domain := decoded;
        } else {
          domain := Some(seg);
        }
        subdomain := if |segs[0..i - 1]| == 0 then None else Some(Join(segs[0..i - 1], '.'));
        break;
      }
    }
    if domain.None? {
      return Err(Panicked(ExpectFailed(EmptyDomainMessage)));
    }
    r := Ok(TldResult(domain.value, subdomain, suffix));
  }

  /**
   * `TldExtractor::extract`: parse the URL, then dispatch on the kind of
   * host. An IP address is reported as the domain, with no subdomain and no
   * suffix; a domain name goes through the suffix scan.
   */
  method Extract(ext: TldExtractor, url: string, parse: string -> ParsedUrl,
                 decode: string -> Option<string>)
    returns (r: Result<TldResult, Failure>)
    ensures match parse(url)
      case Invalid(reason) => r == Err(Raised(UrlParseError(reason)))
      case Parsed(None) => r == Err(Raised(NoHostError(url)))
      case Parsed(Some(Domain(host))) => r == ExtractTripleSpec(ext.tldCache, host, decode)
      case Parsed(Some(Ipv4(address))) => r == Ok(TldResult(address, None, None))
      case Parsed(Some(Ipv6(address))) => r == Ok(TldResult(address, None, None))
  {
    var u := parse(url);
    if u.Invalid? {
      return Err(Raised(UrlParseError(u.reason)));
    }
    if u.host.None? {
      return Err(Raised(NoHostError(url)));
    }
    match u.host.value {
      case Domain(host) =>
        r := ExtractTriple(ext, host, decode);
      case Ipv4(ip) =>
        r := Ok(TldResult(ip, None, None));
      case Ipv6(ip) =>
        r := Ok(TldResult(ip, None, None));
    }
  }

  // ---------------------------------------------------------------------
  // Properties of the scan
  // ---------------------------------------------------------------------

  /**
   * Once the scan stops at a label `i >= 1`: the suffix is the tail from `i`,
   * the domain is label `i - 1` (decoded when it has the punycode prefix),
   * and the subdomain is the labels before it, absent exactly when there are
   * none. The call fails only when the domain label does not decode.
   */
  lemma MatchAt(cache: set<string>, host: string, decode: string -> Option<string>, i: nat)
    requires 1 <= i < |Split(host, '.')|
    requires IsHit(cache, Split(host, '.'), i)
    requires forall j :: 0 <= j < i ==> !IsHit(cache, Split(host, '.'), j)
    ensures var segs := Split(host, '.');
            var r := ExtractTripleSpec(cache, host, decode);
            && (r.Ok? <==> DecodeLabel(segs[i - 1], decode).Some?)
            && (r.Err? ==> r == Err(Raised(Msg(PunycodeErrorMessage))))
            && (r.Ok? ==> r.value.suffix == Some(Join(segs[i..], '.')))
            && (r.Ok? && !StartsWith(segs[i - 1], PunycodePrefix) ==> r.value.domain == segs[i - 1])
            && (r.Ok? ==> (r.value.subdomain.None? <==> i == 1))
            && (r.Ok? && i > 1 ==> r.value.subdomain == Some(Join(segs[..i - 1], '.')))
  {
    var segs := Split(host, '.');
    assert FirstHit(cache, segs, 0) == Some(i);
    var r := ExtractTripleSpec(cache, host, decode);
    var d := DecodeLabel(segs[i - 1], decode);
    if d.Some? {
      assert r == Ok(TldResult(d.value, if i == 1 then None else Some(Join(segs[..i - 1], '.')),
                               Some(Join(segs[i..], '.'))));
    } else {
      assert r == Err(Raised(Msg(PunycodeErrorMessage)));
    }
  }

  /**
   * A tail is reported as the suffix through its wildcard rule alone: it
   * need not be a rule itself.
   */
  lemma WildcardAloneMatches(cache: set<string>, host: string, decode: string -> Option<string>, i: nat)
    requires 1 <= i < |Split(host, '.')|
    requires !Vetoed(cache, Split(host, '.'), i)
    requires Join(Split(host, '.')[i..], '.') !in cache
    requires "*." + Join(Split(host, '.')[i + 1..], '.') in cache
    requires forall j :: 0 <= j < i ==> !IsHit(cache, Split(host, '.'), j)
    requires !StartsWith(Split(host, '.')[i - 1], PunycodePrefix)
    ensures ExtractTripleSpec(cache, host, decode).Ok?
    ensures ExtractTripleSpec(cache, host, decode).value.suffix == Some(Join(Split(host, '.')[i..], '.'))
  {
    MatchAt(cache, host, decode, i);
  }

  /**
   * An exception rule for a tail keeps that tail from ever being reported as
   * the suffix: the scan goes on to shorter tails.
   */
  lemma ExceptionVetoes(cache: set<string>, host: string, decode: string -> Option<string>, i: nat)
    requires i < |Split(host, '.')|
    requires Vetoed(cache, Split(host, '.'), i)
    ensures var r := ExtractTripleSpec(cache, host, decode);
            r.Ok? ==> r.value.suffix != Some(Join(Split(host, '.')[i..], '.'))
  {
    var segs := Split(host, '.');
    var h := FirstHit(cache, segs, 0);
    if h.Some? {
      var k := h.value;
      if k < i {
        JoinTailLonger(segs, k, i, '.');
      } else if k > i {
        JoinTailLonger(segs, i, k, '.');
      }
    }
  }

  /**
   * The reported suffix is the tail at a hit, and no other hit gives a
   * longer tail: it is the longest tail that is a rule or has a wildcard
   * rule and has no exception rule.
   */
  lemma SuffixIsLongestMatch(cache: set<string>, host: string, decode: string -> Option<string>,
                             res: TldResult)
    requires ExtractTripleSpec(cache, host, decode) == Ok(res)
    ensures res.suffix.Some?
    ensures exists i :: 1 <= i < |Split(host, '.')| && IsHit(cache, Split(host, '.'), i)
                        && res.suffix.value == Join(Split(host, '.')[i..], '.')
    ensures forall j :: 0 <= j < |Split(host, '.')| && IsHit(cache, Split(host, '.'), j)
                        ==> |Join(Split(host, '.')[j..], '.')| <= |res.suffix.value|
  {
    var segs := Split(host, '.');
    var k := FirstHit(cache, segs, 0).value;
    assert 1 <= k < |segs| && IsHit(cache, segs, k) && res.suffix.value == Join(segs[k..], '.');
    forall j | 0 <= j < |segs| && IsHit(cache, segs, j)
      ensures |Join(segs[j..], '.')| <= |Join(segs[k..], '.')|
    {
      if j > k {
        JoinTailLonger(segs, k, j, '.');
      }
    }
  }

  /** The `expect` panics exactly when no tail is a hit. */
  lemma NoMatchPanics(cache: set<string>, host: string, decode: string -> Option<string>)
    ensures ExtractTripleSpec(cache, host, decode) == Err(Panicked(ExpectFailed(EmptyDomainMessage)))
            ==> forall j :: 0 <= j < |Split(host, '.')| ==> !IsHit(cache, Split(host, '.'), j)
    ensures (forall j :: 0 <= j < |Split(host, '.')| ==> !IsHit(cache, Split(host, '.'), j))
            ==> ExtractTripleSpec(cache, host, decode) == Err(Panicked(ExpectFailed(EmptyDomainMessage)))
  {
    var segs := Split(host, '.');
    var h := FirstHit(cache, segs, 0);
    if h.Some? {
      assert IsHit(cache, segs, h.value);
    }
  }

  /** Indexing the label before the suffix underflows exactly when the whole host is a hit. */
  lemma WholeHostMatchPanics(cache: set<string>, host: string, decode: string -> Option<string>)
    ensures ExtractTripleSpec(cache, host, decode) == Err(Panicked(IndexUnderflow))
            <==> IsHit(cache, Split(host, '.'), 0)
  {
    var segs := Split(host, '.');
    var h := FirstHit(cache, segs, 0);
    var r := ExtractTripleSpec(cache, host, decode);
    if h.Some? && h.value > 0 {
      assert !IsHit(cache, segs, 0);
      assert r.Ok? || r.error != Panicked(IndexUnderflow);
    } else if h.Some? {
      assert r == Err(Panicked(IndexUnderflow));
    } else {
      assert !IsHit(cache, segs, 0);
    }
  }

  /**
   * When the domain label is not punycode, the three parts put back together
   * with dots give the host again.
   */
  lemma Reconstruction(cache: set<string>, host: string, decode: string -> Option<string>, i: nat)
    requires FirstHit(cache, Split(host, '.'), 0) == Some(i) && i >= 1
    requires !StartsWith(Split(host, '.')[i - 1], PunycodePrefix)
    ensures var r := ExtractTripleSpec(cache, host, decode);
            && r.Ok? && r.value.suffix.Some?
            && (r.value.subdomain.Some? ==>
                  r.value.subdomain.value + "." + r.value.domain + "." + r.value.suffix.value == host)
            && (r.value.subdomain.None? ==> r.value.domain + "." + r.value.suffix.value == host)
  {
    JoinAround(Split(host, '.'), i, '.');
  }

  /** The punycode-prefixed domain label is stripped of every leading prefix and decoded. */
  lemma PunycodeDomain(cache: set<string>, host: string, decode: string -> Option<string>, i: nat)
    requires FirstHit(cache, Split(host, '.'), 0) == Some(i) && i >= 1
    requires StartsWith(Split(host, '.')[i - 1], PunycodePrefix)
    ensures var r := ExtractTripleSpec(cache, host, decode);
            var d := decode(TrimLeftMatches(Split(host, '.')[i - 1], PunycodePrefix));
            && (d.None? ==> r == Err(Raised(Msg(PunycodeErrorMessage))))
            && (d.Some? ==> r.Ok? && r.value.domain == d.value)
  {
  }

  /**
   * Only the domain label is ever decoded: two decoders that agree on it
   * give the same outcome, whatever they do with the other labels.
   */
  lemma OnlyDomainLabelDecoded(cache: set<string>, host: string,
                               d1: string -> Option<string>, d2: string -> Option<string>, i: nat)
    requires FirstHit(cache, Split(host, '.'), 0) == Some(i) && i >= 1
    requires var seg := Split(host, '.')[i - 1];
             StartsWith(seg, PunycodePrefix) ==>
               d1(TrimLeftMatches(seg, PunycodePrefix)) == d2(TrimLeftMatches(seg, PunycodePrefix))
    ensures ExtractTripleSpec(cache, host, d1) == ExtractTripleSpec(cache, host, d2)
  {
  }
}

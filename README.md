# tldextract-rs in Dafny

A model of the core of `tldextract`, a Rust library that splits a URL's host
name into subdomain, registered domain and public suffix. It looks up the
host's tails in a set of rules taken from the Public Suffix List (PSL). Two
pieces are modelled:

- **The suffix scan** (`TldExtractor::extract_triple` and the host dispatch
  in `extract`, `src/lib.rs`), in `tld_extract.dfy`:
  - The host is split on `.`; empty labels are kept.
  - Its tails are tried from the longest (index 0) down.
  - A tail whose exception form `"!" + tail` is a rule is skipped.
  - The first remaining tail that is a rule, or whose wildcard form
    `"*." + (tail without its first label)` is a rule, becomes the suffix.
  - The label before the suffix is the domain. It is punycode-decoded when it
    starts with `xn--`, after every leading `xn--` is stripped. The labels
    before it form the subdomain.
  - The loop is an imperative method, `ExtractTriple`, proved equal to a
    specification function, `ExtractTripleSpec`. That function is built on
    `FirstHit`, the first index the scan stops at. The lemmas about the scan
    are stated over `ExtractTripleSpec`.
- **Reading the list** (`parse_public_suffix_list` and `PUBLIC_SUFFIX_RE`,
  `src/cache/mod.rs`), in `suffix_list.dfy`, as functions:
  - Without private domains, only the text before the first
    `// ===BEGIN PRIVATE DOMAINS===` is read.
  - Lines starting with `//` are dropped.
  - Every other line is trimmed, and its token matching `^[.*!]*\w\S*` is
    kept as a rule, sigils included.
  - The regular expression is written out by hand as `Token`: a run of
    `.`, `*`, `!`, a word character, then everything up to the first
    whitespace. `\w` never matches a sigil and nothing in the pattern matches
    whitespace, so the longest match is found without backtracking. `Token`'s
    contract says the result is the longest prefix matching the pattern, and
    that nothing is returned when no prefix matches.

The Rust standard-library string operations the code relies on are modelled
in `strings.dfy`:
- `join` and `starts_with` are plain definitions without a contract of their own.
- `split` has a contract (separator-free pieces that join back to the input)
  and the inverse lemma `SplitOfJoin`.
- `lines` has the inverse lemmas `LinesOfTerminated` and `LinesOfUnterminated`,
  and `LinesCons` and `LinesOfCrLf` for a line ending in `\n` or `\r\n`.
- `trim_start_matches`, `split(..).next()` and `trim` have no inverse. Each
  contract pins the result down on its own (what is removed, and that
  nothing more could be), and `TrimBlank` and `TrimUnpadded` cover the
  blank and the already-trimmed line.

How the model treats behaviour of the code that is easy to miss:

- **Panics are outcomes.** `extract_triple` panics in two places, and both
  are the result `Err(Panicked(..))`:
  - when the whole host matches, `segs[i - 1]` is evaluated with `i == 0`
    (`IndexUnderflow`);
  - when no tail matches, `domain.expect(..)` fires (`ExpectFailed`).
  A punycode decoding failure is a returned error, `Err(Raised(Msg(..)))`.
- **Exception rules veto one tail only.** The code skips the vetoed tail and
  goes on scanning shorter tails. The PSL algorithm instead takes the
  exception rule minus its leftmost label as the suffix. The two can differ.
  With the rules `jp`, `*.kawasaki.jp` and `!city.kawasaki.jp`, the code
  reports the suffix `jp` for `www.city.kawasaki.jp`, where the PSL
  algorithm gives `kawasaki.jp`. `TldExamples.ExceptionFallsThrough` proves
  what the code does.
- **Only the domain label is decoded.** The subdomain and suffix labels stay
  as written, and `OnlyDomainLabelDecoded` states this.
- **Following the code, not the library's later design:**
  - a host that is itself a rule panics, rather than reporting no domain;
  - no tail matching panics, and there is no "naive" fallback;
  - empty labels are not dropped;
  - every input goes through `Url::parse`, so a bare host name is a URL
    parse error, not a host.
- **`src/lib.rs` and `src/cache/mod.rs` are from different revisions:**
  `lib.rs:83` passes two arguments to `get_tld_cache`, while `mod.rs`
  declares three. Neither is modelled (see below).

## Model

| member | source | states |
|---|---|---|
| TldExtract.NewResult | src/lib.rs:175-184 | `TldResult::new` takes the subdomain first, as `tests/tests.rs:45,51` write their expectations; the example lemmas below state the expected results through it, in that argument order |
| TldExtract.FirstHit | src/lib.rs:107-115 | the scan's stopping index is a non-vetoed match and every earlier index is not one; there is none exactly when no index is a hit |
| TldExtract.ExtractTriple | src/lib.rs:101-139 | the loop with its `continue`, `break`, early error return and panics computes exactly `ExtractTripleSpec`: the outcome at the first hit of the scan |
| TldExtract.Extract | src/lib.rs:91-99 | a URL that does not parse gives `UrlParseError`; one without a host gives `NoHostError(url)`; an IPv4/IPv6 host gives the address as domain with no subdomain and no suffix; a domain goes through the suffix scan |
| TldExtract.MatchAt | src/lib.rs:116-129 | on a hit at `i >= 1`: the suffix is the tail from `i`; the domain is label `i - 1` when not punycode; the subdomain is absent exactly when `i == 1`, otherwise it is the labels before `i - 1` joined by dots; the only error is a failed decode |
| TldExtract.WildcardAloneMatches | src/lib.rs:110-116 | a tail that is not a rule but whose wildcard form is becomes the suffix |
| TldExtract.ExceptionVetoes | src/lib.rs:109-114 | a tail with an exception rule is never the reported suffix |
| TldExtract.SuffixIsLongestMatch | src/lib.rs:107-131 | the reported suffix is the tail at some hit, and no hit gives a longer tail |
| TldExtract.NoMatchPanics | src/lib.rs:134-138 | the `expect` panic occurs if and only if no tail is a hit |
| TldExtract.WholeHostMatchPanics | src/lib.rs:118 | the index-underflow panic occurs if and only if the whole host is a hit |
| TldExtract.Reconstruction | src/lib.rs:102-128 | for a non-punycode domain label, subdomain, domain and suffix joined with dots give back the host, with the subdomain omitted when absent |
| TldExtract.PunycodeDomain | src/lib.rs:118-120 | a domain label starting with `xn--` is stripped of every leading `xn--` and decoded; a failed decode is the error "cannot decode punycode", a successful one is the domain |
| TldExtract.OnlyDomainLabelDecoded | src/lib.rs:118-123 | two decoders that agree on the domain label give the same outcome, so no other label is decoded |
| TldExamples.ForumsNewsCnnCom | tests/tests.rs:47-52 | with the rule `com`, `forums.news.cnn.com` gives `TldResult::new("forums.news", "cnn", "com")` |
| TldExamples.ForumsBbcCoUk | tests/tests.rs:41-46 | with the rules `uk` and `co.uk`, `forums.bbc.co.uk` gives `TldResult::new("forums", "bbc", "co.uk")` |
| TldExamples.ExceptionFallsThrough | src/lib.rs:107-116 | with `jp`, `*.kawasaki.jp` and `!city.kawasaki.jp`, `www.city.kawasaki.jp` gives `TldResult::new("www.city", "kawasaki", "jp")`: subdomain `www.city`, domain `kawasaki`, suffix `jp` |
| TldExamples.WholeHostIsRule | src/lib.rs:118 | with the rule `com`, the host `com` ends in the index-underflow panic |
| Strings.Split | src/lib.rs:102 | `split('.')` yields at least one piece, no piece holds the separator, and joining the pieces gives the input back |
| Strings.SplitOfJoin | src/lib.rs:102 | splitting undoes joining for separator-free pieces, so empty labels are kept |
| Strings.JoinAround | src/lib.rs:108 | the labels before `k - 1`, label `k - 1` and the tail from `k`, joined with the separator, give the whole host |
| Strings.TrimLeftMatches | src/lib.rs:119 | `trim_left_matches` returns a suffix of its input; what it removed is whole copies of the pattern; the result no longer starts with the pattern |
| Strings.BeforeFirst | src/cache/mod.rs:57-59 | `split(marker).next()` is a prefix of the text that ends at the first occurrence of the marker, or is the whole text when there is none |
| Strings.Lines | src/cache/mod.rs:65 | `lines()` yields lines that hold no `\n`; the lemmas below fix every line it yields |
| Strings.LinesCons | src/cache/mod.rs:65 | a line cut at its `\n` is yielded with a trailing `\r` dropped, and the lines after it are those of the rest of the text |
| Strings.LinesOfCrLf | src/cache/mod.rs:65 | a `\r\n` ending is removed whole: the line keeps neither character |
| Strings.LinesOfUnterminated | src/cache/mod.rs:65 | a last line with no final `\n` is still yielded, whole, after the terminated lines before it |
| Strings.LinesOfTerminated | src/cache/mod.rs:65 | reading back lines written one per `\n` gives the same lines |
| Strings.Trim | src/cache/mod.rs:67 | `trim()` removes only whitespace, from both ends, and leaves no whitespace at either end |
| Strings.TrimBlank | src/cache/mod.rs:67 | a line of whitespace only trims to the empty string |
| Strings.TrimUnpadded | src/cache/mod.rs:67 | a string with no whitespace at either end is left unchanged by `trim()` |
| SuffixList.Token | src/cache/mod.rs:11 | the `suffix` capture of the pattern is the longest prefix of the line that matches `[.*!]*\w\S*`, holds no whitespace and ends at whitespace or the line end; there is no capture exactly when no prefix matches |
| SuffixList.NoMatchAcrossWhitespace | src/cache/mod.rs:11 | no prefix reaching past a whitespace character matches the pattern |
| SuffixList.LineRuleShape | src/cache/mod.rs:66-67 | a `//` line and a blank line contribute nothing; any other rule matches the pattern, is non-empty, holds no whitespace and is the first word of the line |
| SuffixList.NoRuleNoMatch | src/cache/mod.rs:67 | a non-comment line without a rule has no prefix of its trimmed text matching the pattern |
| SuffixList.WholeLineIsRule | src/cache/mod.rs:66-68 | a line that is a well-formed rule as it stands is read as exactly that rule |
| SuffixList.LineRules | src/cache/mod.rs:66-67 | the `filter`/`filter_map` step gives, for each line in order, that line's rule if it has one |
| SuffixList.Collect | src/cache/mod.rs:68-69 | the `collect` into a set holds exactly the rules present |
| SuffixList.RulesOf | src/cache/mod.rs:64-69 | a string is in the rule set exactly when some line has it as its rule |
| SuffixList.ReadText | src/cache/mod.rs:56-62 | with private domains the whole text is read; without, only the text before the first private-domains marker |
| SuffixList.ParsePublicSuffixList | src/cache/mod.rs:53-70 | parsing always succeeds, and a string is a rule exactly when some line of the text read has it as its rule |
| SuffixList.PrivateSectionSkipped | src/cache/mod.rs:56-59 | without private domains, a list `public + marker + private` parses as `public` alone |
| SuffixList.NoMarkerReadsAll | src/cache/mod.rs:56-62 | without the marker in the text, the private-domain flag makes no difference |
| SuffixList.SameLinesSameRules | src/cache/mod.rs:64-69 | the rule set depends only on which lines occur: line order and repeated lines do not matter |
| SuffixListExamples.SmallList | src/cache/mod.rs:53-70 | a comment, `com`, `*.ck`, `!www.ck` and a blank line parse to `{com, *.ck, !www.ck}` |
| SuffixListExamples.CrLfAndUnterminated | src/cache/mod.rs:64-69 | a list whose first line ends in `\r\n` and whose last line has no line ending parses to both rules, `{com, net}`, with no `\r` kept |

## Left out

- `src/cache/local.rs`: it reads and writes the cache file and (de)serialises it as JSON. This is I/O only.
- `src/cache/remote.rs`: it fetches the list over the network. Its inline parsing repeats `parse_public_suffix_list`, which is modelled.
- `get_tld_cache` and `set_tld_cache` (`src/cache/mod.rs:14-51`): a chain of I/O providers ending in `unwrap`. The embedded snapshot module is not part of this model.
- `TldExtractor::new` (`src/lib.rs:81-88`) and `TldOption` (`src/lib.rs:61-70`): they only acquire the rule set by the I/O above. The model's extractor is its rule set.
- `NewResult`: the source's generic `Into<Option<&str>>` arguments, which accept a bare `&str` as `Some`, are taken as `Option<string>`, so a present part is written `Some(..)`.
- `url::Url::parse` and `Host`: the model takes them as the function parameter `parse`, which gives a parse error, no host, or a host of one of the three kinds, each address already rendered as text.
- `idna::punycode::decode_to_string`: the model takes it as the function parameter `decode`, which gives an optional string.
- The `regex` engine: the one pattern used is written out by hand as `Token`.
- `IsWordChar`: the `regex` crate's Unicode `\w` is exact for ASCII (letters, digits, `_`), but every non-ASCII character that is not whitespace counts as a word character, because the Unicode word-character tables are not modelled. Whitespace (`trim`, `\S`) uses the exact Unicode White_Space set.
- `Errors.ErrorKind`: the kinds of `src/errors.rs` that the modelled code never produces are left out: `JsonError`, `HttpError`, `IoError` and `EmptyDomainError`. An empty domain panics through `expect`; it does not raise `EmptyDomainError`.
- `WholeHostMatchPanics`: in a debug build `i - 1` overflows, and in a release build the index is out of range; both are modelled as the single panic `IndexUnderflow`.
- The rule set type is modelled as a `set<string>` with membership for `get(..).is_some()`. Hashing is not modelled.
- `examples/example.rs` and `benches/bench_cnn.rs` are not logic. `examples/example.rs:18` passes a bare host, which `Url::parse` rejects, so that call ends in an error.
- `tests/tests.rs` depends on the real PSL snapshot, which is not part of this model. The two test cases used here are restated with the rules they need. `tests/tests.rs:60-63` (an IP address host) is covered by the contract of `Extract`.

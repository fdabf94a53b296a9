/** The domain allowlist (src/domain/value_objects/url_validation.py). URL
    parsing and Unicode lower-casing are the library's; they enter as a record
    of `urlparse` results and as a function parameter. */
module UrlValidation {
  import opened Wrappers

  datatype UrlError = EmptyUrl | BadScheme | NoDomain | NotSupported

  /** What `urlparse` reports about the trimmed link; a missing hostname is "". */
  datatype ParsedUrl = ParsedUrl(url: string, scheme: string, netloc: string, hostname: string)

  function StripLeadingDots(s: string): string {
    if s != "" && s[0] == '.' then StripLeadingDots(s[1..]) else s
  }

  function StripTrailingDots(s: string): string {
    if s != "" && s[|s| - 1] == '.' then StripTrailingDots(s[..|s| - 1]) else s
  }

  predicate EndsWith(s: string, suffix: string) {
    |suffix| <= |s| && s[|s| - |suffix|..] == suffix
  }

  predicate HostMatches(hostname: string, domain: string, lower: string -> string) {
    var d := StripLeadingDots(lower(domain));
    hostname == d || EndsWith(hostname, "." + d)
  }

  function Validate(parsed: ParsedUrl): Result<string, UrlError> {
    if parsed.url == "" then Failure(EmptyUrl)
    else if parsed.scheme != "http" && parsed.scheme != "https" then Failure(BadScheme)
    else if parsed.netloc == "" then Failure(NoDomain)
    else Success(parsed.url)
  }

  /** A link passes the structural check exactly when it is not empty, its scheme
      is one of the two, and it names a domain; it comes back as it was. */
  lemma ValidExactly(parsed: ParsedUrl, url: string)
    ensures Validate(parsed) == Success(url)
            <==> url == parsed.url && url != "" && parsed.scheme in {"http", "https"} && parsed.netloc != ""
    ensures Validate(parsed) == Failure(EmptyUrl) <==> parsed.url == ""
    ensures Validate(parsed) == Failure(NoDomain)
            <==> parsed.url != "" && parsed.scheme in {"http", "https"} && parsed.netloc == ""
  {
  }

  predicate AnyMatches(hostname: string, domains: set<string>, lower: string -> string) {
    exists d <- domains :: HostMatches(hostname, d, lower)
  }

  function ValidateAgainstAllowlist(
      parsed: ParsedUrl, allowed: set<string>, blocked: set<string>, lower: string -> string)
    : Result<string, UrlError>
  {
    var url :- Validate(parsed);
    var hostname := StripTrailingDots(lower(parsed.hostname));
    if !AnyMatches(hostname, blocked, lower) && (allowed == {} || AnyMatches(hostname, allowed, lower)) then
      Success(url)
    else
      Failure(NotSupported)
  }

  // ----- labels: the meaning of a match -----

  /** The dot-separated labels of a name; a name with n dots has n + 1. */
  function Labels(s: string): (labels: seq<string>)
    ensures |labels| >= 1
  {
    if s == "" then [""]
    else
      var rest := Labels(s[1..]);
      if s[0] == '.' then [""] + rest else [[s[0]] + rest[0]] + rest[1..]
  }

  function JoinLabels(labels: seq<string>): string
    requires |labels| >= 1
  {
    if |labels| == 1 then labels[0] else labels[0] + "." + JoinLabels(labels[1..])
  }

  ghost predicate IsLabelSuffix(suffix: seq<string>, labels: seq<string>) {
    |suffix| <= |labels| && labels[|labels| - |suffix|..] == suffix
  }

  lemma {:induction false} JoinInvertsLabels(s: string)
    ensures JoinLabels(Labels(s)) == s
  {
    if s != "" {
      var rest := Labels(s[1..]);
      JoinInvertsLabels(s[1..]);
      if s[0] == '.' {
        assert ([""] + rest)[1..] == rest;
      } else {
        var labels := [[s[0]] + rest[0]] + rest[1..];
        assert labels[1..] == rest[1..];
        assert JoinLabels(labels) == [s[0]] + JoinLabels(rest);
      }
      assert s == [s[0]] + s[1..];
    }
  }

  lemma Regroup(x: string, inner: seq<string>, tail: seq<string>)
    requires |inner| >= 1
    ensures [x] + (inner + tail) == ([x] + inner) + tail
    ensures [x] + (inner + tail)[1..] == ([x] + inner[1..]) + tail
    ensures (inner + tail)[0] == inner[0]
  {
  }

  lemma {:induction false} LabelsOfDotted(head: string, tail: string)
    ensures Labels(head + "." + tail) == Labels(head) + Labels(tail)
  {
    var s := head + "." + tail;
    if head == "" {
      assert s[1..] == tail;
    } else {
      assert s[1..] == head[1..] + "." + tail && s[0] == head[0];
      LabelsOfDotted(head[1..], tail);
      var inner := Labels(head[1..]);
      Regroup(if s[0] == '.' then "" else [s[0]] + inner[0], inner, Labels(tail));
    }
  }

  lemma {:induction false} JoinOfConcat(a: seq<string>, b: seq<string>)
    requires |a| >= 1 && |b| >= 1
    ensures JoinLabels(a + b) == JoinLabels(a) + "." + JoinLabels(b)
  {
    assert (a + b)[1..] == a[1..] + b;
    if |a| > 1 {
      JoinOfConcat(a[1..], b);
    }
  }

  lemma DottedSuffixIsLabelSuffix(head: string, d: string)
    ensures IsLabelSuffix(Labels(d), Labels(head + "." + d))
  {
    LabelsOfDotted(head, d);
  }

  lemma LabelSuffixIsDottedSuffix(hostname: string, d: string)
    requires IsLabelSuffix(Labels(d), Labels(hostname)) && Labels(d) != Labels(hostname)
    ensures EndsWith(hostname, "." + d)
  {
    var suffix, labels := Labels(d), Labels(hostname);
    var head := labels[..|labels| - |suffix|];
    assert labels == head + suffix;
    JoinInvertsLabels(hostname);
    JoinInvertsLabels(d);
    JoinOfConcat(head, suffix);
    DottedEnds(JoinLabels(head), d);
  }

  lemma DottedEnds(head: string, d: string)
    ensures EndsWith(head + "." + d, "." + d)
  {
    assert head + "." + d == head + ("." + d);
  }

  /** A host matches a domain exactly when the domain's labels, lower-cased and
      freed of leading dots, are the last labels of the host: "youtube.com"
      admits "www.youtube.com" and never "evilyoutube.com". */
  lemma MatchIsLabelSuffix(hostname: string, domain: string, lower: string -> string)
    ensures HostMatches(hostname, domain, lower)
            <==> IsLabelSuffix(Labels(StripLeadingDots(lower(domain))), Labels(hostname))
  {
    var d := StripLeadingDots(lower(domain));
    if EndsWith(hostname, "." + d) {
      var head := hostname[..|hostname| - |d| - 1];
      assert hostname == head + "." + d;
      DottedSuffixIsLabelSuffix(head, d);
    } else if Labels(d) == Labels(hostname) {
      JoinInvertsLabels(hostname);
      JoinInvertsLabels(d);
    } else if IsLabelSuffix(Labels(d), Labels(hostname)) {
      LabelSuffixIsDottedSuffix(hostname, d);
    }
  }

  ghost predicate Covers(domains: set<string>, hostname: string, lower: string -> string) {
    exists d <- domains :: IsLabelSuffix(Labels(StripLeadingDots(lower(d))), Labels(hostname))
  }

  lemma CoversIsAnyMatches(domains: set<string>, hostname: string, lower: string -> string)
    ensures Covers(domains, hostname, lower) <==> AnyMatches(hostname, domains, lower)
  {
    forall d | d in domains
      ensures HostMatches(hostname, d, lower)
              <==> IsLabelSuffix(Labels(StripLeadingDots(lower(d))), Labels(hostname))
    {
      MatchIsLabelSuffix(hostname, d, lower);
    }
  }

  /** The whole decision, in label terms: a structurally valid link is accepted
      exactly when no blocked domain covers its host and either the allowlist
      is empty or one of its domains covers the host. */
  lemma AcceptedExactlyWhenCovered(
      parsed: ParsedUrl, allowed: set<string>, blocked: set<string>, lower: string -> string)
    ensures var hostname := StripTrailingDots(lower(parsed.hostname));
            ValidateAgainstAllowlist(parsed, allowed, blocked, lower).Success?
            <==> && Validate(parsed).Success?
                 && !Covers(blocked, hostname, lower)
                 && (allowed == {} || Covers(allowed, hostname, lower))
  {
    var hostname := StripTrailingDots(lower(parsed.hostname));
    CoversIsAnyMatches(blocked, hostname, lower);
    CoversIsAnyMatches(allowed, hostname, lower);
  }

  /** Blocking more never admits more, and a longer non-empty allowlist never
      admits less. */
  lemma AcceptanceIsMonotone(
      parsed: ParsedUrl, allowed: set<string>, allowed': set<string>,
      blocked: set<string>, blocked': set<string>, lower: string -> string)
    requires allowed <= allowed' && blocked' <= blocked && (allowed == {} ==> allowed' == {})
    requires ValidateAgainstAllowlist(parsed, allowed, blocked, lower).Success?
    ensures ValidateAgainstAllowlist(parsed, allowed', blocked', lower)
            == ValidateAgainstAllowlist(parsed, allowed, blocked, lower)
  {
    var hostname := StripTrailingDots(lower(parsed.hostname));
    if AnyMatches(hostname, allowed, lower) {
      var d :| d in allowed && HostMatches(hostname, d, lower);
      assert d in allowed';
    }
  }
}

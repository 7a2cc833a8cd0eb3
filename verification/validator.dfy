/**
 * The validation engine: the DNS and HTTP probe results (inputs here), the
 * first-match classifier, the validation status, the quality score, the
 * recommendation, and `validate_domain`, which serves a cached result when
 * there is one and otherwise classifies the domain and caches the result.
 *
 * Scores are kept in integer tenths of a point: 0..100 stands for 0.0..10.0.
 */
module Validator {
  import opened Text
  import opened Schemas
  import opened DomainLists
  import opened Cache

  /** What the DNS probe found: `check_mx_records` and `check_a_records`. */
  datatype DnsResult = DnsResult(hasMx: bool, mxServers: seq<string>, hasA: bool)

  /** `domain_exists` of `_perform_dns_checks`: an MX or an A record resolved. */
  predicate DomainExists(dns: DnsResult)
  {
    dns.hasMx || dns.hasA
  }

  /** What `check_website_accessibility` found. */
  datatype WebsiteCheck = WebsiteCheck(accessible: bool, hasSsl: bool, statusCode: Option<int>)

  /** What `check_ssl_certificate` found. */
  datatype SslCheck = SslCheck(hasSsl: bool, validSsl: bool)

  /** The combined HTTP findings the classifier and the score read. */
  datatype HttpResult = HttpResult(accessible: bool, hasSsl: bool, statusCode: Option<int>, sslValid: bool)

  /**
   * `_perform_http_checks`: the site is accessible when the website check
   * says so; it has SSL when either the TLS handshake succeeded or the site
   * answered over https.
   */
  function PerformHttpChecks(website: WebsiteCheck, ssl: SslCheck): (http: HttpResult)
    ensures http.accessible == website.accessible
    ensures http.hasSsl <==> ssl.hasSsl || website.hasSsl
    ensures http.statusCode == website.statusCode && http.sslValid == ssl.validSsl
  {
    HttpResult(website.accessible, ssl.hasSsl || website.hasSsl, website.statusCode, ssl.validSsl)
  }

  /** Everything the network probes report about one domain. */
  datatype Probe = Probe(dns: DnsResult, website: WebsiteCheck, ssl: SslCheck)

  const EduTlds: seq<string> := [".edu", ".ac.uk", ".edu.au", ".ac.jp", ".ac.za", ".edu.sg"]
  const GovTlds: seq<string> := [".gov", ".gov.uk", ".gov.au", ".gov.ca", ".gouv.fr", ".gob.es"]

  /** A domain ending with one of `suffixes`, each a dot and at least three more characters, holds a dot and four characters. */
  lemma DottedSuffixMatch(domain: string, suffixes: seq<string>)
    requires forall j :: 0 <= j < |suffixes| ==> |suffixes[j]| >= 4 && suffixes[j][0] == '.'
    ensures EndsWithAny(domain, suffixes) ==> '.' in domain && |domain| >= 4
  {
    if EndsWithAny(domain, suffixes) {
      var j :| 0 <= j < |suffixes| && EndsWith(domain, suffixes[j]);
      assert domain[|domain| - |suffixes[j]|] == suffixes[j][0];
    }
  }

  /**
   * `_is_educational_domain`: the domain ends with one of the academic
   * suffixes. Every suffix starts with its dot, so a match needs a dot and
   * at least four characters.
   */
  predicate IsEducationalDomain(domain: string): (b: bool)
    ensures EndsWith(domain, ".edu") || EndsWith(domain, ".ac.uk") ==> b
    ensures b ==> '.' in domain && |domain| >= 4
  {
    assert EduTlds[0] == ".edu" && EduTlds[1] == ".ac.uk";
    DottedSuffixMatch(domain, EduTlds);
    EndsWithAny(domain, EduTlds)
  }

  /** `_is_government_domain`: the domain ends with one of the government suffixes, each starting with its dot. */
  predicate IsGovernmentDomain(domain: string): (b: bool)
    ensures EndsWith(domain, ".gov") || EndsWith(domain, ".gov.uk") ==> b
    ensures b ==> '.' in domain && |domain| >= 4
  {
    assert GovTlds[0] == ".gov" && GovTlds[1] == ".gov.uk";
    DottedSuffixMatch(domain, GovTlds);
    EndsWithAny(domain, GovTlds)
  }

  /** Prefixing a label (a subdomain) keeps a domain educational or governmental. */
  lemma SubdomainKeepsSuffix(p: string, domain: string)
    ensures IsEducationalDomain(domain) ==> IsEducationalDomain(p + domain)
    ensures IsGovernmentDomain(domain) ==> IsGovernmentDomain(p + domain)
  {
    if IsEducationalDomain(domain) {
      var j :| 0 <= j < |EduTlds| && EndsWith(domain, EduTlds[j]);
      EndsWithTransitive(p, domain, EduTlds[j]);
    }
    if IsGovernmentDomain(domain) {
      var j :| 0 <= j < |GovTlds| && EndsWith(domain, GovTlds[j]);
      EndsWithTransitive(p, domain, GovTlds[j]);
    }
  }

  /** The suffixes include their leading dot: `harvard.edu` and `oxford.ac.uk` are academic, `google.com` is not. */
  lemma EducationalExamples()
    ensures IsEducationalDomain("harvard.edu") && IsEducationalDomain("oxford.ac.uk")
    ensures !IsEducationalDomain("google.com")
  {
    assert EndsWith("harvard.edu", EduTlds[0]);
    assert EndsWith("oxford.ac.uk", EduTlds[1]);
  }

  /** `whitehouse.gov` and `parliament.gov.uk` are governmental. */
  lemma GovernmentExamples()
    ensures IsGovernmentDomain("whitehouse.gov") && IsGovernmentDomain("parliament.gov.uk")
  {
    assert EndsWith("whitehouse.gov", GovTlds[0]);
    assert EndsWith("parliament.gov.uk", GovTlds[1]);
  }

  /** The suffixes include their leading dot: `google.com` and the bare `gov.uk` are not governmental. */
  lemma NonGovernmentExamples()
    ensures !IsGovernmentDomain("google.com") && !IsGovernmentDomain("gov.uk")
  {
    forall j | 0 <= j < |GovTlds|
      ensures !EndsWith("google.com", GovTlds[j]) && !EndsWith("gov.uk", GovTlds[j])
    {
    }
  }

  const SuspiciousPatterns: seq<string> :=
    ["temp", "fake", "test", "spam", "trash", "disposable", "guerrilla", "mailinator", "throwaway", "burner"]
  const SuspiciousTlds: seq<string> := [".tk", ".ml", ".ga", ".cf", ".top", ".click", ".download"]

  /** One of the suspicious words occurs in `s`. */
  predicate HasSuspiciousPattern(s: string)
  {
    exists j :: 0 <= j < |SuspiciousPatterns| && Contains(s, SuspiciousPatterns[j])
  }

  /**
   * The suspicion test: a suspicious word in the lower-cased domain, a
   * suspicious top-level domain, or `mail` in the name of a domain without MX.
   */
  predicate IsSuspicious(domain: string, hasMx: bool): (b: bool)
    ensures IsLowerCase(domain) ==>
      (b <==> HasSuspiciousPattern(domain) || EndsWithAny(domain, SuspiciousTlds) || (!hasMx && Contains(domain, "mail")))
    ensures hasMx ==> (b <==> HasSuspiciousPattern(Lower(domain)) || EndsWithAny(domain, SuspiciousTlds))
  {
    if IsLowerCase(domain) then
      LowerOfLowerCase(domain);
      HasSuspiciousPattern(Lower(domain)) || EndsWithAny(domain, SuspiciousTlds) || (!hasMx && Contains(Lower(domain), "mail"))
    else
      HasSuspiciousPattern(Lower(domain)) || EndsWithAny(domain, SuspiciousTlds) || (!hasMx && Contains(Lower(domain), "mail"))
  }

  /** `_is_suspicious_domain`: scans the words in order and stops at the first hit. */
  method IsSuspiciousDomain(domain: string, dns: DnsResult, http: HttpResult) returns (suspicious: bool)
    ensures suspicious == IsSuspicious(domain, dns.hasMx)
  {
    var domainLower := Lower(domain);
    var patterns := SuspiciousPatterns;
    for i := 0 to |patterns|
      invariant forall j :: 0 <= j < i ==> !Contains(domainLower, patterns[j])
    {
      if Contains(domainLower, patterns[i]) {
        return true;
      }
    }
    if EndsWithAny(domain, SuspiciousTlds) {
      return true;
    }
    if !dns.hasMx && Contains(domainLower, "mail") {
      return true;
    }
    return false;
  }

  /** A lower-case domain that contains one of the suspicious words is suspicious, with or without MX. */
  lemma SuspiciousWord(d: string, j: int, hasMx: bool)
    requires IsLowerCase(d) && 0 <= j < |SuspiciousPatterns| && Contains(d, SuspiciousPatterns[j])
    ensures IsSuspicious(d, hasMx)
  {
    LowerOfLowerCase(d);
  }

  /** `fake-bank.com` holds the word `fake`. */
  lemma FakeBankSuspicious()
    ensures IsSuspicious("fake-bank.com", false)
  {
    assert SuspiciousPatterns[1] <= "fake-bank.com";
    SuspiciousWord("fake-bank.com", 1, false);
  }

  /** `test-spam.tk` and `mailtest.ml` end with suspicious TLDs. */
  lemma SuspiciousTldExamples()
    ensures IsSuspicious("test-spam.tk", false) && IsSuspicious("mailtest.ml", false)
  {
    assert EndsWith("test-spam.tk", SuspiciousTlds[0]);
    assert EndsWith("mailtest.ml", SuspiciousTlds[1]);
  }

  /** A lower-case domain with MX, none of the letters f, s, d, g, i, b, t and no suspicious TLD is not suspicious. */
  lemma NoSuspiciousLetters(d: string)
    requires IsLowerCase(d) && !EndsWithAny(d, SuspiciousTlds)
    requires 'f' !in d && 's' !in d && 'd' !in d && 'g' !in d && 'i' !in d && 'b' !in d && 't' !in d
    ensures !IsSuspicious(d, true)
  {
    LowerOfLowerCase(d);
    forall j | 0 <= j < |SuspiciousPatterns|
      ensures !Contains(d, SuspiciousPatterns[j])
    {
      var c := if j == 1 then 'f' else if j == 3 then 's' else if j == 5 then 'd' else if j == 6 then 'g'
        else if j == 7 then 'i' else if j == 9 then 'b' else 't';
      ContainsNeedsChar(d, SuspiciousPatterns[j], c);
    }
  }

  /**
   * `_classify_domain`: the first rule that applies wins: unreachable,
   * disposable, public provider, educational, government, suspicious, then
   * corporate when the domain has MX and a reachable site, else suspicious.
   */
  function Classify(domain: string, dns: DnsResult, http: HttpResult, isDisposable: bool, isPublic: bool): (t: DomainType)
    ensures t == DomainType.Unreachable <==> !DomainExists(dns)
    ensures t == DomainType.Disposable <==> DomainExists(dns) && isDisposable
    ensures t == DomainType.PublicProvider <==> DomainExists(dns) && !isDisposable && isPublic
    ensures t == DomainType.Educational <==> DomainExists(dns) && !isDisposable && !isPublic && IsEducationalDomain(domain)
    ensures t == DomainType.Government <==>
      DomainExists(dns) && !isDisposable && !isPublic && !IsEducationalDomain(domain) && IsGovernmentDomain(domain)
    ensures t == DomainType.Corporate <==>
      DomainExists(dns) && !isDisposable && !isPublic && !IsEducationalDomain(domain) && !IsGovernmentDomain(domain) &&
      !IsSuspicious(domain, dns.hasMx) && dns.hasMx && http.accessible
  {
    if !DomainExists(dns) then DomainType.Unreachable
    else if isDisposable then DomainType.Disposable
    else if isPublic then DomainType.PublicProvider
    else if IsEducationalDomain(domain) then DomainType.Educational
    else if IsGovernmentDomain(domain) then DomainType.Government
    else if IsSuspicious(domain, dns.hasMx) then DomainType.Suspicious
    else if dns.hasMx && http.accessible then DomainType.Corporate
    else DomainType.Suspicious
  }

  /** A domain without MX and A records is unreachable whatever the lists and the website say. */
  lemma UnreachableRegardless(domain: string, dns: DnsResult, http: HttpResult, isDisposable: bool, isPublic: bool)
    requires !dns.hasMx && !dns.hasA
    ensures Classify(domain, dns, http, isDisposable, isPublic) == DomainType.Unreachable
  {
  }

  /** The academic rule comes before the suspicion rule: a reachable `test.edu` is educational. */
  lemma AcademicBeforeSuspicious(dns: DnsResult, http: HttpResult)
    requires DomainExists(dns)
    ensures Classify("test.edu", dns, http, false, false) == DomainType.Educational
  {
    assert EndsWith("test.edu", EduTlds[0]);
  }

  /** `_determine_validation_status`: INVALID without records, VALID with both, SUSPICIOUS with one. */
  function DetermineValidationStatus(dns: DnsResult): (s: ValidationStatus)
    ensures s == ValidationStatus.Invalid <==> !DomainExists(dns)
    ensures s == ValidationStatus.Valid <==> dns.hasMx && dns.hasA
    ensures s == ValidationStatus.Suspicious <==> dns.hasMx != dns.hasA
  {
    if !DomainExists(dns) then ValidationStatus.Invalid
    else if dns.hasMx && dns.hasA then ValidationStatus.Valid
    else if dns.hasMx || dns.hasA then ValidationStatus.Suspicious
    else ValidationStatus.Unknown
  }

  /** The last branch of the status function is dead: UNKNOWN is never produced. */
  lemma StatusNeverUnknown(dns: DnsResult)
    ensures DetermineValidationStatus(dns) != ValidationStatus.Unknown
  {
  }

  /** The status is INVALID exactly when the classifier says UNREACHABLE. */
  lemma InvalidIffUnreachable(domain: string, dns: DnsResult, http: HttpResult, isDisposable: bool, isPublic: bool)
    ensures DetermineValidationStatus(dns) == ValidationStatus.Invalid <==>
      Classify(domain, dns, http, isDisposable, isPublic) == DomainType.Unreachable
  {
  }

  /** The base scores of `_calculate_quality_score`, in tenths. */
  const TypeScores: map<DomainType, int> := map[
    DomainType.Corporate := 80, DomainType.Educational := 70, DomainType.Government := 90,
    DomainType.PublicProvider := 50, DomainType.Disposable := 10, DomainType.Suspicious := 20,
    DomainType.Unreachable := 0]

  /** `type_scores.get(domain_type, 3.0)`. */
  function BaseScore(t: DomainType): (b: int)
    ensures 0 <= b <= 90
  {
    if t in TypeScores then TypeScores[t] else 30
  }

  /** Every type has a base score, so the fallback of 3.0 is never used. */
  lemma BaseScoreTotal(t: DomainType)
    ensures t in TypeScores && BaseScore(t) != 30
  {
    match t
    case Corporate =>
    case PublicProvider =>
    case Disposable =>
    case Educational =>
    case Government =>
    case Unreachable =>
    case Suspicious =>
  }

  /** `min(10.0, max(0.0, score))`. */
  function Clamp(score: int): (c: int)
    ensures 0 <= c <= 100
    ensures 0 <= score <= 100 ==> c == score
  {
    if score > 100 then 100 else if score < 0 then 0 else score
  }

  /** The bonuses of the probe findings: MX 0.5, A 0.3, a reachable site 0.5, SSL 0.7. */
  function ProbeBonus(dns: DnsResult, http: HttpResult): (b: int)
    ensures 0 <= b <= 20
  {
    (if dns.hasMx then 5 else 0) + (if dns.hasA then 3 else 0) +
    (if http.accessible then 5 else 0) + (if http.hasSsl then 7 else 0)
  }

  /** The quality score: the type's base plus the probe bonuses, clamped to 0..10. */
  function QualityScore(t: DomainType, dns: DnsResult, http: HttpResult): (q: int)
    ensures 0 <= q <= 100
    ensures BaseScore(t) <= q <= BaseScore(t) + 20
  {
    Clamp(BaseScore(t) + ProbeBonus(dns, http))
  }

  /** `_calculate_quality_score`: starts from the base score and adds each bonus in turn. */
  method CalculateQualityScore(t: DomainType, dns: DnsResult, http: HttpResult) returns (score: int)
    ensures score == QualityScore(t, dns, http)
  {
    var typeScores := TypeScores;
    score := if t in typeScores then typeScores[t] else 30;
    if dns.hasMx {
      score := score + 5;
    }
    if dns.hasA {
      score := score + 3;
    }
    if http.accessible {
      score := score + 5;
    }
    if http.hasSsl {
      score := score + 7;
    }
    score := if score > 100 then 100 else if score < 0 then 0 else score;
  }

  /** More positive probe findings never lower the score. */
  lemma ScoreMonotone(t: DomainType, dns1: DnsResult, http1: HttpResult, dns2: DnsResult, http2: HttpResult)
    requires (dns1.hasMx ==> dns2.hasMx) && (dns1.hasA ==> dns2.hasA)
    requires (http1.accessible ==> http2.accessible) && (http1.hasSsl ==> http2.hasSsl)
    ensures QualityScore(t, dns1, http1) <= QualityScore(t, dns2, http2)
  {
  }

  /** An unreachable domain with no findings at all scores 0. */
  lemma UnreachableScoresZero(dns: DnsResult, http: HttpResult)
    requires !dns.hasMx && !dns.hasA && !http.accessible && !http.hasSsl
    ensures QualityScore(DomainType.Unreachable, dns, http) == 0
  {
  }

  /** `_generate_recommendation`: reject disposable or low-scoring domains, accept good corporate and all academic or governmental ones. */
  function GenerateRecommendation(t: DomainType, q: int): (r: Recommendation)
    ensures r == Reject <==> t == DomainType.Disposable || q < 30
    ensures r == Accept <==>
      t != DomainType.Disposable && q >= 30 &&
      ((t == DomainType.Corporate && q >= 70) || t == DomainType.Educational || t == DomainType.Government)
  {
    if t == DomainType.Disposable || q < 30 then Reject
    else if t == DomainType.Corporate && q >= 70 then Accept
    else if t == DomainType.Educational || t == DomainType.Government then Accept
    else ManualReview
  }

  /** The metadata snapshot of the probes; WHOIS fields stay absent. */
  function ProbeMetadata(dns: DnsResult, http: HttpResult): (m: DomainMetadata)
    ensures m.hasMxRecord == dns.hasMx && m.hasARecord == dns.hasA && m.mxServers == Some(dns.mxServers)
    ensures m.websiteAccessible == http.accessible && m.hasSslCertificate == http.hasSsl
    ensures m.whoisRegistrar == None && m.whoisCreationDate == None && m.whoisCountry == None
  {
    DomainMetadata(dns.hasMx, dns.hasA, Some(dns.mxServers), http.accessible, http.hasSsl, None, None, None)
  }

  /** The result `validate_domain` assembles for a cache miss. */
  function Assess(domain: string, dns: DnsResult, http: HttpResult, isDisposable: bool, isPublic: bool): (r: DomainValidationResponse)
    ensures r.domain == domain
    ensures 0 <= r.qualityScore <= 100
  {
    var t := Classify(domain, dns, http, isDisposable, isPublic);
    var q := QualityScore(t, dns, http);
    DomainValidationResponse(domain, t, DetermineValidationStatus(dns), q, GenerateRecommendation(t, q), ProbeMetadata(dns, http))
  }

  /** A listed disposable domain is always rejected: as DISPOSABLE when it resolves, as UNREACHABLE (score at most 1.2) when it does not. */
  lemma DisposableAlwaysRejected(domain: string, dns: DnsResult, http: HttpResult, isPublic: bool)
    ensures Assess(domain, dns, http, true, isPublic).recommendation == Reject
    ensures DomainExists(dns) ==> Assess(domain, dns, http, true, isPublic).domainType == DomainType.Disposable
    ensures !DomainExists(dns) ==>
      Assess(domain, dns, http, true, isPublic).domainType == DomainType.Unreachable &&
      Assess(domain, dns, http, true, isPublic).qualityScore <= 12
  {
    if !DomainExists(dns) {
      assert QualityScore(DomainType.Unreachable, dns, http) <= 12;
    }
  }

  /** A corporate result is always accepted: its score is at least 8.0. */
  lemma CorporateAccepted(domain: string, dns: DnsResult, http: HttpResult, isDisposable: bool, isPublic: bool)
    requires Assess(domain, dns, http, isDisposable, isPublic).domainType == DomainType.Corporate
    ensures Assess(domain, dns, http, isDisposable, isPublic).recommendation == Accept
    ensures Assess(domain, dns, http, isDisposable, isPublic).qualityScore >= 80
  {
  }

  /** Academic and governmental results are always accepted. */
  lemma AcademicAndGovernmentAccepted(domain: string, dns: DnsResult, http: HttpResult, isDisposable: bool, isPublic: bool)
    requires Assess(domain, dns, http, isDisposable, isPublic).domainType in {DomainType.Educational, DomainType.Government}
    ensures Assess(domain, dns, http, isDisposable, isPublic).recommendation == Accept
  {
  }

  /** A public provider always goes to manual review. */
  lemma PublicProviderReviewed(domain: string, dns: DnsResult, http: HttpResult, isDisposable: bool, isPublic: bool)
    requires Assess(domain, dns, http, isDisposable, isPublic).domainType == DomainType.PublicProvider
    ensures Assess(domain, dns, http, isDisposable, isPublic).recommendation == ManualReview
  {
  }

  /** An unreachable domain is INVALID and rejected, with a score of at most 1.2. */
  lemma UnreachableRejected(domain: string, dns: DnsResult, http: HttpResult, isDisposable: bool, isPublic: bool)
    requires !DomainExists(dns)
    ensures Assess(domain, dns, http, isDisposable, isPublic).domainType == DomainType.Unreachable
    ensures Assess(domain, dns, http, isDisposable, isPublic).validationStatus == ValidationStatus.Invalid
    ensures Assess(domain, dns, http, isDisposable, isPublic).recommendation == Reject
    ensures Assess(domain, dns, http, isDisposable, isPublic).qualityScore <= 12
  {
  }

  /** A suspicious result is rejected exactly when it scores below 3.0, and otherwise reviewed. */
  lemma SuspiciousRecommendation(domain: string, dns: DnsResult, http: HttpResult, isDisposable: bool, isPublic: bool)
    requires Assess(domain, dns, http, isDisposable, isPublic).domainType == DomainType.Suspicious
    ensures var r := Assess(domain, dns, http, isDisposable, isPublic);
      (r.recommendation == Reject <==> r.qualityScore < 30) &&
      (r.recommendation == ManualReview <==> r.qualityScore >= 30)
  {
  }

  /** All probes positive (MX, A, a reachable site over SSL). */
  function FullDns(): DnsResult { DnsResult(true, ["mail.example.com"], true) }
  function FullHttp(): HttpResult { HttpResult(true, true, Some(200), true) }

  /** `whitehouse.gov` with every probe positive is a governmental, valid, accepted domain with the top score. */
  lemma WhitehouseExample()
    ensures var r := Assess("whitehouse.gov", FullDns(), FullHttp(), false, false);
      r.domainType == DomainType.Government && r.validationStatus == ValidationStatus.Valid &&
      r.qualityScore == 100 && r.recommendation == Accept
  {
    assert !IsEducationalDomain("whitehouse.gov");
    assert EndsWith("whitehouse.gov", GovTlds[0]);
  }

  /** A reachable domain on no list, without an academic, governmental or suspicious name, is accepted as corporate. */
  lemma CleanReachableIsCorporate(d: string)
    requires !IsSuspicious(d, true) && !IsEducationalDomain(d) && !IsGovernmentDomain(d)
    ensures var r := Assess(d, FullDns(), FullHttp(), false, false);
      r.domainType == DomainType.Corporate && r.validationStatus == ValidationStatus.Valid &&
      r.qualityScore == 100 && r.recommendation == Accept
  {
  }

  /** `example.com` has no suspicious word or TLD. */
  lemma ExampleComNotSuspicious()
    ensures !IsSuspicious("example.com", true)
  {
    NoSuspiciousLetters("example.com");
  }

  /** `example.com` has no academic or governmental suffix. */
  lemma ExampleComNotInstitutional()
    ensures !IsEducationalDomain("example.com") && !IsGovernmentDomain("example.com")
  {
  }

  /** `example.com` with every probe positive and on no list is a corporate, valid, accepted domain. */
  lemma ExampleComExample()
    ensures var r := Assess("example.com", FullDns(), FullHttp(), false, false);
      r.domainType == DomainType.Corporate && r.validationStatus == ValidationStatus.Valid &&
      r.qualityScore == 100 && r.recommendation == Accept
  {
    ExampleComNotSuspicious();
    ExampleComNotInstitutional();
    CleanReachableIsCorporate("example.com");
  }

  /** `harvard.edu` with every probe positive is academic and accepted. */
  lemma HarvardExample()
    ensures var r := Assess("harvard.edu", FullDns(), FullHttp(), false, false);
      r.domainType == DomainType.Educational && r.recommendation == Accept
  {
    assert EndsWith("harvard.edu", EduTlds[0]);
  }

  /**
   * `validate_domain` on the contents of the cache: the domain is lower-cased
   * and stripped; a cached result is returned as it is; otherwise the domain
   * is assessed against the lists and the result written to the cache.
   */
  function ValidateOnStore(store: Store, connected: bool, getFault: bool, putFault: bool, raw: string, probe: Probe,
                           disposable: set<string>, public: set<string>): (out: (DomainValidationResponse, Store))
    ensures Lookup(store, connected, getFault, Strip(Lower(raw))).None? ==> out.0.domain == Strip(Lower(raw))
    ensures !connected ==> out.1 == store
  {
    var domain := Strip(Lower(raw));
    match Lookup(store, connected, getFault, domain)
    case Some(cached) => (cached, store)
    case None =>
      var result := Assess(domain, probe.dns, PerformHttpChecks(probe.website, probe.ssl),
                           Lower(domain) in disposable, Lower(domain) in public);
      (result, Stored(store, connected, putFault, domain, result))
  }

  /** On a hit the cached result is returned and the cache is not written. */
  lemma ValidateHit(store: Store, connected: bool, getFault: bool, putFault: bool, raw: string, probe: Probe,
                    disposable: set<string>, public: set<string>)
    requires Lookup(store, connected, getFault, Strip(Lower(raw))).Some?
    ensures ValidateOnStore(store, connected, getFault, putFault, raw, probe, disposable, public) ==
      (store[CacheKey(Strip(Lower(raw)))], store)
  {
  }

  /** On a miss the fresh result carries the normalised domain and is written under it. */
  lemma ValidateMiss(store: Store, connected: bool, getFault: bool, putFault: bool, raw: string, probe: Probe,
                     disposable: set<string>, public: set<string>)
    requires Lookup(store, connected, getFault, Strip(Lower(raw))).None?
    ensures var (r, s) := ValidateOnStore(store, connected, getFault, putFault, raw, probe, disposable, public);
      r.domain == Strip(Lower(raw)) && s == Stored(store, connected, putFault, Strip(Lower(raw)), r)
  {
  }

  /** Without a connection nothing is cached: every call assesses afresh and the store is untouched. */
  lemma ValidateDisconnected(store: Store, getFault: bool, putFault: bool, raw: string, probe: Probe,
                             disposable: set<string>, public: set<string>)
    ensures var (r, s) := ValidateOnStore(store, false, getFault, putFault, raw, probe, disposable, public);
      s == store && r.domain == Strip(Lower(raw))
  {
  }

  /**
   * With a working connection, validating a domain a second time returns the
   * first result and leaves the cache as the first call left it, whatever the
   * probes and the lists say the second time.
   */
  lemma ValidateRepeatable(store: Store, raw: string, probe1: Probe, probe2: Probe,
                           d1: set<string>, p1: set<string>, d2: set<string>, p2: set<string>)
    ensures var (r1, s1) := ValidateOnStore(store, true, false, false, raw, probe1, d1, p1);
      ValidateOnStore(s1, true, false, false, raw, probe2, d2, p2) == (r1, s1)
  {
    var domain := Strip(Lower(raw));
    var (r1, s1) := ValidateOnStore(store, true, false, false, raw, probe1, d1, p1);
    if Lookup(store, true, false, domain).None? {
      GetAfterPut(store, domain, domain, r1);
      assert s1 == store[CacheKey(domain) := r1];
    }
    assert Lookup(s1, true, false, domain) == Some(r1);
  }

  /**
   * A store written only by `validate_domain`: every entry lies under the key
   * of its own domain, and that domain is lower-case and stripped.
   */
  predicate StoreConsistent(store: Store)
  {
    forall k :: k in store ==> k == CacheKey(store[k].domain) && IsLowerCase(store[k].domain) && IsStripped(store[k].domain)
  }

  /**
   * On a consistent store the result, cached or fresh, is about the
   * lower-cased and stripped input, and the store stays consistent.
   */
  lemma ValidateNormalisesDomain(store: Store, connected: bool, getFault: bool, putFault: bool, raw: string, probe: Probe,
                                 disposable: set<string>, public: set<string>)
    requires StoreConsistent(store)
    ensures var (r, s) := ValidateOnStore(store, connected, getFault, putFault, raw, probe, disposable, public);
      r.domain == Strip(Lower(raw)) && StoreConsistent(s)
  {
    var d := Strip(Lower(raw));
    LowerPointwise(raw);
    StripKeepsLowerCase(Lower(raw));
    match Lookup(store, connected, getFault, d)
    case Some(cached) =>
      assert CacheKey(d) == CacheKey(cached.domain);
      CacheKeySameEntry(d, cached.domain);
      LowerOfLowerCase(d);
      LowerOfLowerCase(cached.domain);
    case None =>
  }

  class DomainValidator {
    const lists: DomainListsManager
    const cache: CacheService

    /** A validator with a new catalogue and a new, not yet connected, cache service. */
    constructor(backing: Store)
      ensures fresh(lists) && fresh(cache)
      ensures lists.Valid() && lists.disposableSources == DisposableSourceUrls && lists.disposableDomains == {} && lists.publicProviderDomains == Members(PublicProviderNames)
      ensures !cache.connected && cache.store == backing
    {
      lists := new DomainListsManager();
      cache := new CacheService(backing);
    }

    /** `_classify_domain`, asking the catalogue for list membership. */
    method ClassifyDomain(domain: string, dns: DnsResult, http: HttpResult) returns (t: DomainType)
      ensures t == Classify(domain, dns, http, lists.IsDisposableDomain(domain), lists.IsPublicProvider(domain))
    {
      if !(dns.hasMx || dns.hasA) {
        return DomainType.Unreachable;
      }
      if lists.IsDisposableDomain(domain) {
        return DomainType.Disposable;
      }
      if lists.IsPublicProvider(domain) {
        return DomainType.PublicProvider;
      }
      if IsEducationalDomain(domain) {
        return DomainType.Educational;
      }
      if IsGovernmentDomain(domain) {
        return DomainType.Government;
      }
      var suspicious := IsSuspiciousDomain(domain, dns, http);
      if suspicious {
        return DomainType.Suspicious;
      }
      if dns.hasMx && http.accessible {
        return DomainType.Corporate;
      }
      return DomainType.Suspicious;
    }

    /** `validate_domain`: cache lookup, then probes, classification, score, recommendation and cache write. */
    method ValidateDomain(raw: string, probe: Probe, getFault: bool, putFault: bool) returns (result: DomainValidationResponse)
      modifies cache`store
      ensures (result, cache.store) ==
        ValidateOnStore(old(cache.store), cache.connected, getFault, putFault, raw, probe,
                        lists.disposableDomains, lists.publicProviderDomains)
    {
      var domain := Strip(Lower(raw));
      var cached := cache.GetCachedValidation(domain, getFault);
      if cached.Some? {
        return cached.value;
      }
      var dns := probe.dns;
      var http := PerformHttpChecks(probe.website, probe.ssl);
      var metadata := ProbeMetadata(dns, http);
      var domainType := ClassifyDomain(domain, dns, http);
      var validationStatus := DetermineValidationStatus(dns);
      var qualityScore := CalculateQualityScore(domainType, dns, http);
      var recommendation := GenerateRecommendation(domainType, qualityScore);
      result := DomainValidationResponse(domain, domainType, validationStatus, qualityScore, recommendation, metadata);
      cache.CacheValidationResult(domain, result, putFault);
    }
  }
}

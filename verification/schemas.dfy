/**
 * The request and response records of the validator, its three
 * enumerations (with their wire values) and the request normaliser that
 * turns an email address or a domain into the domain to validate.
 */
module Schemas {
  import opened Text

  /** Python's `Optional[T]`. */
  datatype Option<T> = None | Some(value: T)

  /** A point in time, in whole seconds; what it counts from is not modelled. */
  type Timestamp = int

  datatype DomainType =
    | Corporate
    | PublicProvider
    | Disposable
    | Educational
    | Government
    | Unreachable
    | Suspicious
  {
    /** The string the enum member serialises to. */
    function Value(): string
    {
      match this
      case Corporate => "corporate"
      case PublicProvider => "public_provider"
      case Disposable => "disposable"
      case Educational => "educational"
      case Government => "government"
      case Unreachable => "unreachable"
      case Suspicious => "suspicious"
    }
  }

  datatype ValidationStatus = Valid | Invalid | Suspicious | Unknown
  {
    function Value(): string
    {
      match this
      case Valid => "valid"
      case Invalid => "invalid"
      case Suspicious => "suspicious"
      case Unknown => "unknown"
    }
  }

  datatype Recommendation = Accept | Reject | ManualReview
  {
    function Value(): string
    {
      match this
      case Accept => "accept"
      case Reject => "reject"
      case ManualReview => "manual_review"
    }
  }

  const AllDomainTypes: set<DomainType> :=
    {DomainType.Corporate, DomainType.PublicProvider, DomainType.Disposable, DomainType.Educational,
     DomainType.Government, DomainType.Unreachable, DomainType.Suspicious}
  const AllValidationStatuses: set<ValidationStatus> :=
    {ValidationStatus.Valid, ValidationStatus.Invalid, ValidationStatus.Suspicious, ValidationStatus.Unknown}
  const AllRecommendations: set<Recommendation> := {Accept, Reject, ManualReview}

  /** `DomainType` has exactly seven members. */
  lemma DomainTypeCount()
    ensures forall t: DomainType :: t in AllDomainTypes
    ensures |AllDomainTypes| == 7
  {
    forall t: DomainType
      ensures t in AllDomainTypes
    {
      match t
      case Corporate =>
      case PublicProvider =>
      case Disposable =>
      case Educational =>
      case Government =>
      case Unreachable =>
      case Suspicious =>
    }
    var a := {DomainType.Corporate, DomainType.PublicProvider, DomainType.Disposable};
    var b := {DomainType.Educational, DomainType.Government};
    var c := {DomainType.Unreachable, DomainType.Suspicious};
    assert |a| == 3 && |b| == 2 && |c| == 2;
    assert |a + b| == 5;
    assert AllDomainTypes == a + b + c;
  }

  /** `ValidationStatus` has exactly four members. */
  lemma ValidationStatusCount()
    ensures forall v: ValidationStatus :: v in AllValidationStatuses
    ensures |AllValidationStatuses| == 4
  {
    forall v: ValidationStatus
      ensures v in AllValidationStatuses
    {
      match v
      case Valid =>
      case Invalid =>
      case Suspicious =>
      case Unknown =>
    }
    var d := {ValidationStatus.Valid, ValidationStatus.Invalid};
    var e := {ValidationStatus.Suspicious, ValidationStatus.Unknown};
    assert AllValidationStatuses == d + e;
  }

  /** `Recommendation` has exactly three members. */
  lemma RecommendationCount()
    ensures forall r: Recommendation :: r in AllRecommendations
    ensures |AllRecommendations| == 3
  {
    forall r: Recommendation
      ensures r in AllRecommendations
    {
      match r
      case Accept =>
      case Reject =>
      case ManualReview =>
    }
  }

  /** `DomainType(s)`: reading a wire value back; anything else is a validation error. */
  function ParseDomainType(s: string): (r: Option<DomainType>)
    ensures r.Some? ==> r.value.Value() == s
  {
    if s == "corporate" then Some(DomainType.Corporate)
    else if s == "public_provider" then Some(DomainType.PublicProvider)
    else if s == "disposable" then Some(DomainType.Disposable)
    else if s == "educational" then Some(DomainType.Educational)
    else if s == "government" then Some(DomainType.Government)
    else if s == "unreachable" then Some(DomainType.Unreachable)
    else if s == "suspicious" then Some(DomainType.Suspicious)
    else None
  }

  /** Every member's wire value reads back as that member, so the values are distinct. */
  lemma DomainTypeRoundTrip(t: DomainType)
    ensures ParseDomainType(t.Value()) == Some(t)
  {
  }

  /** What was learnt about a domain; every field defaults to false or absent. */
  datatype DomainMetadata = DomainMetadata(
    hasMxRecord: bool,
    hasARecord: bool,
    mxServers: Option<seq<string>>,
    websiteAccessible: bool,
    hasSslCertificate: bool,
    whoisRegistrar: Option<string>,
    whoisCreationDate: Option<Timestamp>,
    whoisCountry: Option<string>)

  /** `DomainMetadata()` with every field left at its default. */
  function DefaultMetadata(): (m: DomainMetadata)
    ensures !m.hasMxRecord && !m.hasARecord && !m.websiteAccessible && !m.hasSslCertificate
    ensures m.mxServers == None && m.whoisRegistrar == None
    ensures m.whoisCreationDate == None && m.whoisCountry == None
  {
    DomainMetadata(false, false, None, false, false, None, None, None)
  }

  /**
   * The unit returned and cached. `qualityScore` is in tenths of a point
   * (0..100 stands for 0.0..10.0); the `checked_at` timestamp is not modelled.
   */
  datatype DomainValidationResponse = DomainValidationResponse(
    domain: string,
    domainType: DomainType,
    validationStatus: ValidationStatus,
    qualityScore: int,
    recommendation: Recommendation,
    metadata: DomainMetadata)

  /** The batch reply; `processing_time_seconds` is not modelled. */
  datatype BatchValidationResponse = BatchValidationResponse(
    results: seq<DomainValidationResponse>,
    totalProcessed: int)

  /** An address or a domain is normalised to a lower-case domain without `@` or surrounding blanks. */
  predicate IsNormalDomain(d: string)
  {
    '@' !in d && IsLowerCase(d) && IsStripped(d)
  }

  /**
   * `DomainValidationRequest.validate_domain`: if the input holds an `@`,
   * keep what lies between the first `@` and the next one (`split('@')[1]`),
   * then lower-case and strip.
   */
  function NormalizeRequestDomain(v: string): (r: string)
    ensures IsNormalDomain(r)
    ensures '@' !in v ==> r == Strip(Lower(v))
    ensures '@' in v ==> r == Strip(Lower(Split(v, '@')[1]))
  {
    var part := if '@' in v then Split(v, '@')[1] else v;
    assert '@' !in part;
    LowerKeepsOut(part, '@');
    LowerPointwise(part);
    StripKeepsOut(Lower(part), '@');
    StripKeepsLowerCase(Lower(part));
    Strip(Lower(part))
  }

  /** Normalising an already normalised domain changes nothing. */
  lemma NormalDomainFixed(d: string)
    requires IsNormalDomain(d)
    ensures NormalizeRequestDomain(d) == d
  {
    LowerOfLowerCase(d);
    StripOfStripped(d);
  }

  /** Normalising twice is the same as normalising once. */
  lemma NormalizeIdempotent(v: string)
    ensures NormalizeRequestDomain(NormalizeRequestDomain(v)) == NormalizeRequestDomain(v)
  {
    NormalDomainFixed(NormalizeRequestDomain(v));
  }

  /** An address `user@domain` normalises to its domain when that domain is already normal. */
  lemma {:induction false} NormalizeEmail(user: string, d: string)
    requires '@' !in user && IsNormalDomain(d)
    ensures NormalizeRequestDomain(user + ['@'] + d) == d
  {
    var v := user + ['@'] + d;
    assert v[|user|] == '@';
    SplitAtFirst(user, d, '@');
    SplitWithoutSeparator(d, '@');
    assert Split(v, '@')[1] == d;
    LowerOfLowerCase(d);
    StripOfStripped(d);
  }

  /** `"user@example.com"` normalises to `"example.com"`. */
  lemma NormalizeEmailExample()
    ensures NormalizeRequestDomain("user@example.com") == "example.com"
  {
    assert "user@example.com" == "user" + ['@'] + "example.com";
    NormalizeEmail("user", "example.com");
  }

  /** An empty domain part is not rejected: `"user@"` normalises to the empty string. */
  lemma NormalizeEmptyDomainPart()
    ensures NormalizeRequestDomain("user@") == ""
  {
    assert "user@" == "user" + ['@'] + "";
    SplitAtFirst("user", "", '@');
  }
}

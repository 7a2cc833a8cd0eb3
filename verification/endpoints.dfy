/**
 * The HTTP endpoints of the `/domain` router that drive the validator: the
 * batch loop, the single-domain endpoint with its error mapping, the cache
 * invalidation endpoint and the per-request validator set-up.
 */
module DomainEndpoints {
  import opened Text
  import opened Schemas
  import opened DomainLists
  import opened Cache
  import opened Validator

  /**
   * What happens around one `validate_domain` call: what the probes report,
   * whether the cache read and write fail, and whether the call raises (and
   * with which message). A raising call never reaches the cache write.
   */
  datatype Attempt = Attempt(probe: Probe, getFault: bool, putFault: bool, failure: Option<string>)

  /**
   * `validate_domains_batch` on the store: each input in order is validated
   * against the store left by the previous ones; a call that raises is
   * skipped and the rest go on.
   */
  function BatchOnStore(store: Store, connected: bool, domains: seq<string>, attempts: seq<Attempt>,
                        disposable: set<string>, public: set<string>): (out: (seq<DomainValidationResponse>, Store))
    requires |domains| == |attempts|
    ensures |out.0| <= |domains|
    decreases |domains|
  {
    if |domains| == 0 then ([], store)
    else
      var n := |domains| - 1;
      var (results, s) := BatchOnStore(store, connected, domains[..n], attempts[..n], disposable, public);
      var a := attempts[n];
      if a.failure.Some? then (results, s)
      else
        var (r, s') := ValidateOnStore(s, connected, a.getFault, a.putFault, domains[n], a.probe, disposable, public);
        (results + [r], s')
  }

  /** The inputs whose validation does not raise, lower-cased and stripped, in input order. */
  function KeptDomains(domains: seq<string>, attempts: seq<Attempt>): (kept: seq<string>)
    requires |domains| == |attempts|
    ensures |kept| <= |domains|
    decreases |domains|
  {
    if |domains| == 0 then []
    else
      var n := |domains| - 1;
      KeptDomains(domains[..n], attempts[..n]) + if attempts[n].failure.Some? then [] else [Strip(Lower(domains[n]))]
  }

  /**
   * On a store written only by the validator, the batch returns one result
   * per input that did not raise, in input order, each about that input
   * lower-cased and stripped; the store stays consistent.
   */
  lemma {:induction false} BatchDomains(store: Store, connected: bool, domains: seq<string>, attempts: seq<Attempt>,
                                        disposable: set<string>, public: set<string>)
    requires |domains| == |attempts| && StoreConsistent(store)
    ensures var (results, s) := BatchOnStore(store, connected, domains, attempts, disposable, public);
      |results| == |KeptDomains(domains, attempts)| &&
      (forall k :: 0 <= k < |results| ==> results[k].domain == KeptDomains(domains, attempts)[k]) &&
      StoreConsistent(s)
    decreases |domains|
  {
    if |domains| > 0 {
      var n := |domains| - 1;
      BatchDomains(store, connected, domains[..n], attempts[..n], disposable, public);
      var (results, s) := BatchOnStore(store, connected, domains[..n], attempts[..n], disposable, public);
      var a := attempts[n];
      if a.failure.None? {
        ValidateNormalisesDomain(s, connected, a.getFault, a.putFault, domains[n], a.probe, disposable, public);
      }
    }
  }

  /** When no validation raises, the batch returns exactly one result per input. */
  lemma {:induction false} BatchNoFailures(store: Store, connected: bool, domains: seq<string>, attempts: seq<Attempt>,
                                           disposable: set<string>, public: set<string>)
    requires |domains| == |attempts|
    requires forall i :: 0 <= i < |attempts| ==> attempts[i].failure.None?
    ensures |BatchOnStore(store, connected, domains, attempts, disposable, public).0| == |domains|
    decreases |domains|
  {
    if |domains| > 0 {
      var n := |domains| - 1;
      BatchNoFailures(store, connected, domains[..n], attempts[..n], disposable, public);
    }
  }

  /** When every validation raises, the batch returns nothing and the store is untouched. */
  lemma {:induction false} BatchAllFail(store: Store, connected: bool, domains: seq<string>, attempts: seq<Attempt>,
                                        disposable: set<string>, public: set<string>)
    requires |domains| == |attempts|
    requires forall i :: 0 <= i < |attempts| ==> attempts[i].failure.Some?
    ensures BatchOnStore(store, connected, domains, attempts, disposable, public) == ([], store)
    decreases |domains|
  {
    if |domains| > 0 {
      var n := |domains| - 1;
      BatchAllFail(store, connected, domains[..n], attempts[..n], disposable, public);
    }
  }

  /**
   * The batch does not apply the request normaliser: an input that is already
   * lower-case and stripped is validated as it is, even an address such as
   * `user@example.com`, `@` and all.
   */
  lemma BatchKeepsAddress(store: Store, connected: bool, d: string, a: Attempt, disposable: set<string>, public: set<string>)
    requires StoreConsistent(store) && a.failure.None?
    requires IsLowerCase(d) && IsStripped(d)
    ensures var (results, _) := BatchOnStore(store, connected, [d], [a], disposable, public);
      |results| == 1 && results[0].domain == d
  {
    BatchDomains(store, connected, [d], [a], disposable, public);
    assert KeptDomains([d], [a]) == [Strip(Lower(d))];
    LowerOfLowerCase(d);
    StripOfStripped(d);
  }

  /**
   * `validate_domains_batch`: validates the inputs one by one, collecting the
   * results of the calls that do not raise.
   */
  method ValidateDomainsBatch(validator: DomainValidator, domains: seq<string>, attempts: seq<Attempt>)
    returns (response: BatchValidationResponse)
    requires |domains| == |attempts|
    modifies validator.cache`store
    ensures (response.results, validator.cache.store) ==
      BatchOnStore(old(validator.cache.store), validator.cache.connected, domains, attempts,
                   validator.lists.disposableDomains, validator.lists.publicProviderDomains)
    ensures response.totalProcessed == |response.results| <= |domains|
  {
    var results: seq<DomainValidationResponse> := [];
    for i := 0 to |domains|
      invariant (results, validator.cache.store) ==
        BatchOnStore(old(validator.cache.store), validator.cache.connected, domains[..i], attempts[..i],
                     validator.lists.disposableDomains, validator.lists.publicProviderDomains)
    {
      assert domains[..i + 1][..i] == domains[..i];
      assert attempts[..i + 1][..i] == attempts[..i];
      var a := attempts[i];
      if a.failure.Some? {
        continue;
      }
      var result := validator.ValidateDomain(domains[i], a.probe, a.getFault, a.putFault);
      results := results + [result];
    }
    assert domains[..|domains|] == domains;
    assert attempts[..|attempts|] == attempts;
    response := BatchValidationResponse(results, |results|);
  }

  /** What the single-domain endpoint answers: the result, or an HTTP error with its detail. */
  datatype Reply = Ok(result: DomainValidationResponse) | HttpError(status: int, detail: string)

  /**
   * The single `validate_domain` endpoint on the store: the request's domain
   * has already been normalised; a validation that raises becomes a 500 whose
   * detail is `"Validation failed: "` followed by the message.
   */
  function ValidateReply(store: Store, connected: bool, requestDomain: string, a: Attempt,
                         disposable: set<string>, public: set<string>): (out: (Reply, Store))
    ensures out.0.Ok? <==> a.failure.None?
    ensures a.failure.Some? ==> out.1 == store
  {
    var domain := NormalizeRequestDomain(requestDomain);
    match a.failure
    case Some(message) => (HttpError(500, "Validation failed: " + message), store)
    case None =>
      var (r, s) := ValidateOnStore(store, connected, a.getFault, a.putFault, domain, a.probe, disposable, public);
      (Ok(r), s)
  }

  /** A failure is reported as a 500 whose detail starts with `"Validation failed: "`, and the store is untouched. */
  lemma FailureIs500(store: Store, connected: bool, requestDomain: string, a: Attempt,
                     disposable: set<string>, public: set<string>)
    requires a.failure.Some?
    ensures var (reply, s) := ValidateReply(store, connected, requestDomain, a, disposable, public);
      reply.HttpError? && reply.status == 500 && "Validation failed: " <= reply.detail && s == store
  {
  }

  /**
   * On a store written only by the validator, a successful reply is about the
   * normalised request domain, which never holds an `@`: `user@example.com`
   * is answered for `example.com`.
   */
  lemma SuccessIsAboutRequestDomain(store: Store, connected: bool, requestDomain: string, a: Attempt,
                                    disposable: set<string>, public: set<string>)
    requires StoreConsistent(store) && a.failure.None?
    ensures var (reply, s) := ValidateReply(store, connected, requestDomain, a, disposable, public);
      reply.Ok? && reply.result.domain == NormalizeRequestDomain(requestDomain) && '@' !in reply.result.domain &&
      StoreConsistent(s)
  {
    var domain := NormalizeRequestDomain(requestDomain);
    ValidateNormalisesDomain(store, connected, a.getFault, a.putFault, domain, a.probe, disposable, public);
    LowerOfLowerCase(domain);
    StripOfStripped(domain);
  }

  /** `validate_domain` (the endpoint): validates the request's domain and maps a raised error to a 500. */
  method ValidateEndpoint(validator: DomainValidator, requestDomain: string, a: Attempt) returns (reply: Reply)
    modifies validator.cache`store
    ensures (reply, validator.cache.store) ==
      ValidateReply(old(validator.cache.store), validator.cache.connected, requestDomain, a,
                    validator.lists.disposableDomains, validator.lists.publicProviderDomains)
  {
    var domain := NormalizeRequestDomain(requestDomain);
    if a.failure.Some? {
      return HttpError(500, "Validation failed: " + a.failure.value);
    }
    var result := validator.ValidateDomain(domain, a.probe, a.getFault, a.putFault);
    reply := Ok(result);
  }

  /** The message the invalidation endpoint returns. */
  function InvalidatedMessage(domain: string): (message: string)
    ensures "Cache invalidated for domain: " <= message && message[|"Cache invalidated for domain: "|..] == domain
  {
    "Cache invalidated for domain: " + domain
  }

  /**
   * `invalidate_domain_cache` (the endpoint): deletes the domain's entry and
   * confirms. The cache swallows its own errors, so the 500 branch is never taken.
   */
  method InvalidateEndpoint(validator: DomainValidator, domain: string, fault: bool) returns (message: string)
    modifies validator.cache`store
    ensures validator.cache.store == Deleted(old(validator.cache.store), validator.cache.connected, fault, domain)
    ensures message == InvalidatedMessage(domain)
  {
    validator.cache.InvalidateDomainCache(domain, fault);
    message := InvalidatedMessage(domain);
  }

  /**
   * `get_validator`: a new validator per request, its cache connected when
   * the server answers, its catalogue refreshed from the sources' outcomes.
   */
  method GetValidator(backing: Store, reachable: bool, outcomes: seq<SourceResult>, localFile: CsvFile)
    returns (validator: DomainValidator)
    requires |outcomes| == |DisposableSourceUrls|
    ensures fresh(validator) && fresh(validator.lists) && fresh(validator.cache)
    ensures validator.cache.connected == reachable && validator.cache.store == backing
    ensures validator.lists.Valid()
    ensures validator.lists.disposableDomains == Union(SourceLists(outcomes))
    ensures validator.lists.publicProviderDomains ==
      Members(PublicProviderNames) + if localFile.Rows? then Members(CsvDomains(localFile.rows)) else {}
  {
    validator := new DomainValidator(backing);
    validator.cache.Connect(reachable);
    validator.lists.Initialize(outcomes, localFile);
  }
}

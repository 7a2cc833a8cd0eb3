# Domain Validator — a Dafny model of its decision core

The Domain Validator is a web service that classifies an email domain. It
returns one of:

- corporate;
- public email provider;
- disposable;
- educational;
- governmental;
- unreachable;
- suspicious.

For each domain it also gives a validation status, a quality score from 0 to
10, and an accept / reject / manual-review recommendation. This project
models in Dafny the logic that makes these decisions. The model has six parts:

- **`text.dfy`** (`Text`): the Python string operations the service relies on. These are `lower()`, `strip()`, `split`, `endswith` and `in`.
- **`schemas.dfy`** (`Schemas`): the three enumerations with their wire values, the result records, and the request normaliser. The normaliser turns `user@Example.COM ` into `example.com`.
- **`lists.dfy`** (`DomainLists`): the domain-list catalogue, as a `DomainListsManager` class holding two sets.
  - The public providers are seeded with 19 webmail domains.
  - The disposable domains only grow.
  - A refresh takes two inputs: the outcome of each download, and the local CSV file.
  - The line filters are loop methods, proved against prefix-recursive specification functions.
- **`cache.dfy`** (`Cache`): the validation cache, as a `CacheService` class.
  - Its fields are a `connected` flag and the map held by the Redis server.
  - Entries are keyed by `"domain_validation:" + lower(domain)`.
  - The pure functions `Lookup`, `Stored` and `Deleted` specify it.
- **`validator.dfy`** (`Validator`):
  - the probe records;
  - the first-match classifier and the validation status;
  - the quality score, kept in integer tenths (0..100 stands for 0.0..10.0);
  - the recommendation;
  - `validate_domain`.

  `ValidateOnStore` states the cache-then-probe-then-classify flow on the cache contents. The `DomainValidator` class method is proved equal to it.
- **`endpoints.dfy`** (`DomainEndpoints`): four parts of the `/domain` router:
  - the batch loop, which skips the inputs whose validation raises;
  - the single-domain endpoint, which maps an error to HTTP 500;
  - the cache invalidation endpoint;
  - the per-request validator set-up.

The network probes (DNS, HTTP, TLS) are inputs: a `Probe` record per domain.
So are the downloads, the CSV file, the reachability of the Redis server, and
whether a store call fails. With these as inputs, everything modelled is
deterministic.

Only the request schema of the single-domain endpoint takes the part after `@`
(`app/models/schemas.py:29-34`). The validator itself only lower-cases and
strips (`app/services/domain_validator.py:21`). The batch endpoint applies no
normaliser, so a batch input `user@example.com` is validated as it stands. The
model follows the code: see `BatchKeepsAddress` and
`SuccessIsAboutRequestDomain`.

## Model

| member | source | states |
|---|---|---|
| Text.LowerPointwise | app/services/domain_validator.py:21 | `lower()` maps every character to its lower-case form and keeps the length; the result has no upper-case letter |
| Text.LowerIdempotent | app/services/cache_service.py:32 | lower-casing twice equals lower-casing once |
| Text.Strip | app/services/domain_validator.py:21 | `strip()` leaves no whitespace at either end and never lengthens the string |
| Text.StripIsSlice | app/services/domain_validator.py:21 | the stripped string is a contiguous slice of the input |
| Text.LowerStripCommute | app/services/domain_lists_manager.py:66 | `strip().lower()` (list lines) and `lower().strip()` (validator) give the same string |
| Text.Contains | app/services/domain_validator.py:133 | `sub in s` holds exactly when `sub` occurs at some position of `s` |
| Text.ContainsNeedsChar | app/services/domain_validator.py:133 | a string that contains `sub` contains every character of `sub` |
| Text.Split | app/services/domain_lists_manager.py:65 | `split(sep)` yields at least one part, no part holds `sep`, and there are several parts exactly when `sep` occurs |
| Text.SplitJoin | app/services/domain_lists_manager.py:65 | joining the parts of a split with the separator gives back the string |
| Text.SplitAtFirst | app/models/schemas.py:33 | splitting `a + sep + b` with `sep` not in `a` gives `a` followed by the parts of `b` |
| Text.EndsWithTransitive | app/services/domain_validator.py:118 | an ending of `s` is an ending of every string that ends with `s` |
| Schemas.DomainTypeCount | app/models/schemas.py:6-13 | every domain type is one of the seven listed, and there are exactly seven |
| Schemas.ValidationStatusCount | app/models/schemas.py:15-19 | exactly four validation statuses |
| Schemas.RecommendationCount | app/models/schemas.py:21-24 | exactly three recommendations |
| Schemas.ParseDomainType | app/models/schemas.py:6-13 | a wire value read back gives a member whose value is that string |
| Schemas.DomainTypeRoundTrip | app/models/schemas.py:6-13 | every member's wire value reads back as that member, so the values are distinct |
| Schemas.DefaultMetadata | app/models/schemas.py:36-44 | every boolean of the default metadata is false and every optional field absent |
| Schemas.NormalizeRequestDomain | app/models/schemas.py:29-34 | with an `@`, the segment after the first `@` (`split('@')[1]`), lower-cased and stripped; otherwise the input lower-cased and stripped; the result never holds `@`, is lower-case and stripped |
| Schemas.NormalDomainFixed | app/models/schemas.py:29-34 | an already normal domain is returned unchanged |
| Schemas.NormalizeIdempotent | app/models/schemas.py:29-34 | normalising twice equals normalising once |
| Schemas.NormalizeEmail | app/models/schemas.py:31-34 | `user@d` normalises to `d` when `user` has no `@` and `d` is normal |
| Schemas.NormalizeEmailExample | app/models/schemas.py:29-34 | `"user@example.com"` normalises to `"example.com"` |
| Schemas.NormalizeEmptyDomainPart | app/models/schemas.py:31-34 | `"user@"` normalises to the empty string, which is not rejected |
| DomainLists.NormalizeLineIsNormal | app/services/domain_lists_manager.py:66 | a normalised line is lower-case and has no surrounding whitespace |
| DomainLists.ListedDomains | app/services/domain_lists_manager.py:65-68 | the kept lines are at most as many as the lines, and each is non-empty, not a `#` comment, and holds a dot |
| DomainLists.ListedDomainsAppend | app/services/domain_lists_manager.py:65-68 | filtering is line by line: the lists of two blocks of lines concatenate |
| DomainLists.ListedDomainsMembers | app/services/domain_lists_manager.py:65-68 | a domain is kept exactly when it passes the filter and some line normalises to it |
| DomainLists.NormalLineFixed | app/services/domain_lists_manager.py:66 | a lower-case stripped line is its own normal form |
| DomainLists.ListedDomainsSnoc | app/services/domain_lists_manager.py:65-68 | one more line appends its normal form exactly when that passes the filter |
| DomainLists.ListedDomainsSnocNormal | app/services/domain_lists_manager.py:65-68 | one more normal line is appended exactly when it passes the filter |
| DomainLists.SplitFourLines | app/services/domain_lists_manager.py:65 | four newline-free lines joined by newlines split back into those four lines |
| DomainLists.ContentFourLines | app/services/domain_lists_manager.py:65 | a body without surrounding whitespace yields its four lines |
| DomainLists.ListedNoDomains | app/services/domain_lists_manager.py:65-68 | a line that normalises to a `#` comment and a line that normalises to a word without a dot are both dropped, whatever their case and blanks |
| DomainLists.CommentAndDotlessLines | tests/test_domain_lists_manager.py:18 | every line beginning with `#` (the test's `# Comment`) normalises to a comment, and a line without a dot (`invalid_line`) to a word without a dot |
| DomainLists.ListedFourLines | app/services/domain_lists_manager.py:65-68 | of two domains, a line that normalises to a `#` comment and one that normalises to a dotless word, the two domains are kept in order |
| DomainLists.FetchFourLines | tests/test_domain_lists_manager.py:14-23 | a 200 response of the test's shape (two domains, a comment in any case, a dotless word) delivers exactly the two domains |
| DomainLists.FetchDomainList | app/services/domain_lists_manager.py:59-75 | the returned list is the filter applied to the lines of a 200 response, and empty for any other status or an exception; every entry passes the filter |
| DomainLists.FetchFailures | app/services/domain_lists_manager.py:70-75 | a 404 or a download exception delivers the empty list |
| DomainLists.CsvDomains | app/services/domain_lists_manager.py:83-87 | at most one domain per row, each non-empty and dotted |
| DomainLists.CsvDomainsMembers | app/services/domain_lists_manager.py:83-87 | a CSV domain is exactly the normalised first column of some non-empty row, when non-empty and dotted |
| DomainLists.LoadHubspotList | app/services/domain_lists_manager.py:77-94 | the rows' first-column domains in order; the empty list when the file is missing or unreadable |
| DomainLists.SourceList | app/services/domain_lists_manager.py:43-48 | a source that raised contributes nothing |
| DomainLists.SourceLists | app/services/domain_lists_manager.py:41-48 | one list per source, in source order |
| DomainLists.SourceListsAt | app/services/domain_lists_manager.py:41-42 | the `i`-th list is the `i`-th source's |
| DomainLists.Members | app/services/domain_lists_manager.py:48 | the set `set.update(list)` adds holds exactly the list's entries |
| DomainLists.MembersOfDistinct | app/services/domain_lists_manager.py:28 | a list without repeats gives a set of the same size |
| DomainLists.UnionMembers | app/services/domain_lists_manager.py:41-48 | a domain is in the accumulated union exactly when it is on one of the lists |
| DomainLists.UnionSourceListsStep | app/services/domain_lists_manager.py:47-48 | taking one more source into account adds its list's entries |
| DomainLists.DeliveredDomainsMembers | app/services/domain_lists_manager.py:41-48 | a domain is added exactly when it is on the list of a source that did not raise |
| DomainLists.CountsStep | app/services/domain_lists_manager.py:44-47 | the report gains the next source's entry |
| DomainLists.CountsKeys | app/services/domain_lists_manager.py:41-47 | the report has one key per source and no other |
| DomainLists.CountsAt | app/services/domain_lists_manager.py:44-47 | with distinct sources, each source maps to the length of its list, duplicates counted, and 0 when it raised |
| DomainLists.CountsNoHubspot | app/services/domain_lists_manager.py:52-53 | the `"hubspot_list"` key never collides with a source's key |
| DomainLists.SourceUrlsDistinct | app/services/domain_lists_manager.py:13-18 | the four source URLs are distinct and none is `"hubspot_list"` |
| DomainLists.NineteenPublicProviders | app/services/domain_lists_manager.py:20-25 | the seeded public providers are 19 distinct domains |
| DomainLists.DomainListsManager.constructor | app/services/domain_lists_manager.py:12-28 | the four sources, an empty disposable set, and exactly the seeded public providers |
| DomainLists.DomainListsManager.RecordSources | app/services/domain_lists_manager.py:41-48 | the disposable set becomes the old set united with every delivered list; the report maps each source to its list's length |
| DomainLists.DomainListsManager.UpdateDisposableLists | app/services/domain_lists_manager.py:30-57 | both sets only grow. The disposable set becomes the old set united with every delivered list. A local file adds its CSV domains to the public providers. The report holds the source counts, plus `"hubspot_list"` with the local list's length exactly when that list is non-empty |
| DomainLists.DomainListsManager.Initialize | app/services/domain_lists_manager.py:112-113 | a refresh whose report is dropped; the same new sets |
| DomainLists.DomainListsManager.IsDisposableDomain | app/services/domain_lists_manager.py:96-97 | for a lower-case domain, true exactly when it is in the disposable set; never true of an empty set |
| DomainLists.DomainListsManager.IsPublicProvider | app/services/domain_lists_manager.py:99-100 | for a lower-case domain, true exactly when it is in the provider set; never true of an empty set |
| DomainLists.DomainListsManager.CaseInsensitive | app/services/domain_lists_manager.py:96-110 | the two membership queries and the category do not depend on the case of the domain |
| DomainLists.DomainListsManager.GetDomainCategory | app/services/domain_lists_manager.py:102-110 | `"disposable"` exactly when disposable (even if also public); `"public_provider"` exactly when public and not disposable; `"unknown"` otherwise |
| DomainLists.FreshCatalogueExample | tests/test_domain_lists_manager.py:88-97 | a new catalogue answers `gmail.com` as a public provider, not disposable, category `"public_provider"` |
| Cache.CacheKey | app/services/cache_service.py:31-32 | the key is the prefix `domain_validation:` followed by the lower-cased domain |
| Cache.CacheKeySameEntry | app/services/cache_service.py:31-32 | two domains share a key exactly when they agree once lower-cased |
| Cache.CacheKeyIgnoresCase | app/services/cache_service.py:31-32 | a domain and its lower-case form have the same key |
| Cache.Lookup | app/services/cache_service.py:34-50 | a hit exactly when connected, the read does not fail and the key is present; the hit is the stored entry |
| Cache.Stored | app/services/cache_service.py:52-68 | a write adds the domain's key when connected and not failing, and otherwise changes nothing |
| Cache.Deleted | app/services/cache_service.py:70-78 | a delete removes the domain's key when connected and not failing, and otherwise changes nothing |
| Cache.GetAfterPut | app/services/cache_service.py:34-65 | after a successful write, a read of any spelling that lower-cases the same returns the written result |
| Cache.GetAfterDelete | app/services/cache_service.py:70-76 | after a successful delete, every read of the domain misses |
| Cache.OtherKeysUnchanged | app/services/cache_service.py:57-76 | a write or delete of one domain leaves every other key and its entry as it was |
| Cache.OtherDomainsUnchanged | app/services/cache_service.py:34-76 | what another domain reads is not affected by a write or delete of one domain |
| Cache.InertWhenUnavailable | app/services/cache_service.py:34-78 | disconnected or failing: reads miss, writes and deletes change nothing, and no error escapes |
| Cache.CaseInsensitive | app/services/cache_service.py:31-78 | read, write and delete depend on the domain only through its lower-case form |
| Cache.PutIdempotent | app/services/cache_service.py:61-65 | writing the same result twice equals writing it once |
| Cache.CacheService.constructor | app/services/cache_service.py:10-12 | a new service has no client and the configured TTL of 3600 seconds |
| Cache.CacheService.Connect | app/services/cache_service.py:14-25 | connected exactly when the server answers; a failure leaves the service disconnected |
| Cache.CacheService.GetCachedValidation | app/services/cache_service.py:34-50 | the answer is `Lookup` on the current store; nothing changes |
| Cache.CacheService.CacheValidationResult | app/services/cache_service.py:52-68 | the store becomes `Stored` of the old store |
| Cache.CacheService.InvalidateDomainCache | app/services/cache_service.py:70-78 | the store becomes `Deleted` of the old store |
| Cache.CacheService.GetCacheStats | app/services/cache_service.py:80-95 | `disconnected` exactly without a client, `error` exactly when `info()` fails, `connected` otherwise |
| Cache.UnreachableServerExample | app/services/cache_service.py:14-36 | after a failed connect a written result is not read back |
| Validator.PerformHttpChecks | app/services/domain_validator.py:75-84 | accessible as the website check says; SSL exactly when the TLS check or the website check found it |
| Validator.IsEducationalDomain | app/services/domain_validator.py:116-118 | a domain ending in `.edu` or `.ac.uk` is educational; an educational domain holds a dot and at least four characters, since every suffix starts with its dot |
| Validator.IsGovernmentDomain | app/services/domain_validator.py:120-122 | a domain ending in `.gov` or `.gov.uk` is governmental; a governmental domain holds a dot and at least four characters, since every suffix starts with its dot |
| Validator.SubdomainKeepsSuffix | app/services/domain_validator.py:116-122 | prefixing a subdomain keeps an educational or governmental domain so |
| Validator.EducationalExamples | app/services/domain_validator.py:116-118 | `harvard.edu` and `oxford.ac.uk` are educational, `google.com` is not |
| Validator.GovernmentExamples | app/services/domain_validator.py:120-122 | `whitehouse.gov` and `parliament.gov.uk` are governmental |
| Validator.NonGovernmentExamples | app/services/domain_validator.py:120-122 | `google.com` and the bare `gov.uk` are not governmental, because the suffixes include the dot |
| Validator.IsSuspicious | app/services/domain_validator.py:124-145 | for a lower-case domain, suspicious exactly when it holds a suspicious word, ends with a suspicious TLD, or holds `mail` without MX; with MX the `mail` test plays no part |
| Validator.IsSuspiciousDomain | app/services/domain_validator.py:124-145 | suspicious exactly when a suspicious word is in the lower-cased domain, or it ends with a suspicious TLD, or it holds `mail` and has no MX |
| Validator.SuspiciousWord | app/services/domain_validator.py:131-134 | a lower-case domain holding a suspicious word is suspicious, with or without MX |
| Validator.FakeBankSuspicious | tests/test_domain_validator.py:143 | `fake-bank.com` is suspicious |
| Validator.SuspiciousTldExamples | tests/test_domain_validator.py:144-145 | `test-spam.tk` and `mailtest.ml` are suspicious |
| Validator.NoSuspiciousLetters | app/services/domain_validator.py:124-145 | a lower-case domain with MX, no suspicious TLD and none of the letters f, s, d, g, i, b, t is not suspicious |
| Validator.ExampleComNotSuspicious | tests/test_domain_validator.py:147-149 | `example.com` with MX is not suspicious |
| Validator.Classify | app/services/domain_validator.py:86-114 | one iff per type, following the first-match order: unreachable exactly without MX and A; disposable, then public provider, then educational, then government; corporate exactly when none of those, not suspicious, with MX and a reachable site |
| Validator.UnreachableRegardless | app/services/domain_validator.py:87-88 | without MX and A the type is unreachable whatever the lists and the website say |
| Validator.AcademicBeforeSuspicious | app/services/domain_validator.py:98-108 | a reachable `test.edu` is educational, not suspicious |
| Validator.DetermineValidationStatus | app/services/domain_validator.py:147-157 | invalid exactly without MX and A, valid exactly with both, suspicious exactly with one |
| Validator.StatusNeverUnknown | app/services/domain_validator.py:154-157 | the status is never unknown |
| Validator.InvalidIffUnreachable | app/services/domain_validator.py:148-149 | the status is invalid exactly when the type is unreachable |
| Validator.BaseScore | app/services/domain_validator.py:163-173 | every base score lies between 0.0 and 9.0 |
| Validator.BaseScoreTotal | app/services/domain_validator.py:173 | every type has a base score, so the fallback of 3.0 is never used |
| Validator.Clamp | app/services/domain_validator.py:185 | the clamped score lies in 0..10 and an in-range score is kept |
| Validator.ProbeBonus | app/services/domain_validator.py:175-183 | the bonuses add up to between 0.0 and 2.0 |
| Validator.QualityScore | app/services/domain_validator.py:159-185 | the score lies in [0, 10] and between the type's base and the base plus 2.0 (so an all-positive corporate scores at least 8.0 and a disposable at most 3.0) |
| Validator.CalculateQualityScore | app/services/domain_validator.py:159-185 | the accumulated score equals `QualityScore` |
| Validator.ScoreMonotone | app/services/domain_validator.py:175-185 | more positive probe findings never lower the score |
| Validator.UnreachableScoresZero | tests/test_domain_validator.py:163-167 | an unreachable domain with no findings scores exactly 0 |
| Validator.GenerateRecommendation | app/services/domain_validator.py:187-197 | reject exactly when disposable or below 3.0; accept exactly when not rejected and either corporate with at least 7.0, or educational or governmental |
| Validator.ProbeMetadata | app/services/domain_validator.py:35-41 | the metadata copies the MX, A, MX-server, website and SSL findings and leaves the WHOIS fields absent |
| Validator.Assess | app/services/domain_validator.py:35-57 | the fresh result carries the validated domain and a score in [0, 10] |
| Validator.DisposableAlwaysRejected | app/services/domain_validator.py:86-189 | a domain on the disposable list is always rejected: typed disposable when it has an MX or A record, otherwise typed unreachable with a score of at most 1.2 |
| Validator.CorporateAccepted | app/services/domain_validator.py:191-192 | a corporate result scores at least 8.0 and is accepted |
| Validator.AcademicAndGovernmentAccepted | app/services/domain_validator.py:194-195 | educational and governmental results are accepted |
| Validator.PublicProviderReviewed | app/services/domain_validator.py:187-197 | a public provider always goes to manual review |
| Validator.UnreachableRejected | app/services/domain_validator.py:87-89 | without MX and A: unreachable, invalid, rejected, and a score of at most 1.2 |
| Validator.SuspiciousRecommendation | app/services/domain_validator.py:187-197 | a suspicious result is rejected exactly below 3.0 and reviewed otherwise |
| Validator.WhitehouseExample | tests/test_domain_validator.py:100-110 | `whitehouse.gov` with every probe positive is governmental, valid, accepted, with score 10 |
| Validator.CleanReachableIsCorporate | app/services/domain_validator.py:110-112 | a fully reachable domain on no list, with no special suffix and not suspicious, is a valid accepted corporate domain with score 10 |
| Validator.ExampleComNotInstitutional | app/services/domain_validator.py:116-122 | `example.com` has no educational or governmental suffix |
| Validator.ExampleComExample | tests/test_domain_validator.py:35-47 | `example.com` with every probe positive is corporate, valid and accepted |
| Validator.HarvardExample | tests/test_domain_validator.py:87-97 | `harvard.edu` with every probe positive is educational and accepted |
| Validator.ValidateOnStore | app/services/domain_validator.py:20-62 | on a miss the result is about the lower-cased, stripped input; without a connection the store is unchanged |
| Validator.ValidateHit | app/services/domain_validator.py:24-26 | on a hit the cached entry is returned and the store is not written |
| Validator.ValidateMiss | app/services/domain_validator.py:49-62 | on a miss the fresh result is about the normalised domain and is written under it |
| Validator.ValidateDisconnected | app/services/domain_validator.py:20-62 | without a connection the store is untouched and the result is about the normalised domain |
| Validator.ValidateRepeatable | app/services/domain_validator.py:24-26 | with a working connection, a second validation returns the first result and leaves the store as it was, whatever the probes and lists say the second time |
| Validator.ValidateNormalisesDomain | app/services/domain_validator.py:21-60 | on a store written only by the validator, the result (cached or fresh) is about the lower-cased, stripped input, and the store stays so |
| Validator.DomainValidator.constructor | app/services/domain_validator.py:14-18 | a new catalogue (no disposable domain, the seeded providers) and a new cache that is not yet connected |
| Validator.DomainValidator.ClassifyDomain | app/services/domain_validator.py:86-114 | the type equals `Classify` with the catalogue's two membership answers |
| Validator.DomainValidator.ValidateDomain | app/services/domain_validator.py:20-62 | result and new store equal `ValidateOnStore` on the old store and the catalogue's sets |
| DomainEndpoints.BatchOnStore | app/api/endpoints/domain.py:40-46 | at most one result per input |
| DomainEndpoints.KeptDomains | app/api/endpoints/domain.py:40-46 | at most one kept domain per input |
| DomainEndpoints.BatchDomains | app/api/endpoints/domain.py:40-46 | on a store written only by the validator: one result per input that did not raise, in input order, each about that input lower-cased and stripped; the store stays so |
| DomainEndpoints.BatchNoFailures | tests/test_api_endpoints.py:58-70 | when no validation raises, there is one result per input |
| DomainEndpoints.BatchAllFail | app/api/endpoints/domain.py:44-46 | when every validation raises, there are no results and the store is untouched |
| DomainEndpoints.BatchKeepsAddress | app/models/schemas.py:55-56 | a batch input that is already lower-case and stripped is validated as it is, so `user@example.com` keeps its `@` |
| DomainEndpoints.ValidateDomainsBatch | app/api/endpoints/domain.py:31-56 | results and new store equal `BatchOnStore`; `total_processed` is the number of results, at most the number of inputs |
| DomainEndpoints.ValidateReply | app/api/endpoints/domain.py:20-29 | a reply is a result exactly when the validation does not raise; a raise leaves the store unchanged |
| DomainEndpoints.FailureIs500 | app/api/endpoints/domain.py:28-29 | a raise becomes HTTP 500 with detail starting `"Validation failed: "`, and the store is unchanged |
| DomainEndpoints.SuccessIsAboutRequestDomain | app/api/endpoints/domain.py:25-27 | on a store written only by the validator, a success is about the normalised request domain, which holds no `@` |
| DomainEndpoints.ValidateEndpoint | app/api/endpoints/domain.py:20-29 | reply and new store equal `ValidateReply` |
| DomainEndpoints.InvalidatedMessage | app/api/endpoints/domain.py:77 | the message is `"Cache invalidated for domain: "` followed by the domain |
| DomainEndpoints.InvalidateEndpoint | app/api/endpoints/domain.py:70-79 | the store becomes `Deleted` of the old store and the confirmation is returned |
| DomainEndpoints.GetValidator | app/api/endpoints/domain.py:14-18 | a new validator whose cache is connected exactly when the server answers, and whose catalogue holds every delivered list plus the seeded and local public providers |

## Left out

- DNS, HTTP and TLS probing: network I/O, so the probe results are inputs (`Probe`).
  - Whether `has_mx` agrees with the MX server list is not assumed; the DNS checker can report MX with an empty list.
  - `asyncio.gather` runs the two probe groups concurrently. They are independent, so the model runs them one after the other.
- The Redis client itself: the model covers only its contents.
  - JSON serialisation is taken to be the identity.
  - The `info()` counters of `get_cache_stats` are dropped; only its status is modelled.
  - `disconnect` is not modelled.
  - TTL expiry is not modelled. The TTL value 3600 from `app/core/config.py:11` is kept as a constant.
  - Store errors are boolean inputs to each operation.
- Downloads, the file open and the CSV reader: I/O, so a download is a `FetchResponse`, the local file a `CsvFile` of rows, and each source's gathered outcome a `SourceResult`.
  - The refresh takes the sources' outcomes as given. Each outcome is what `FetchDomainList` returns for that download; the refresh does not re-run the download.
- Python strings: `lower()` and `strip()` are modelled for ASCII.
  - `strip()` removes the ASCII whitespace Python recognises, including `\x1c`-`\x1f`.
  - Unicode case mapping and Unicode whitespace are not modelled.
- Floating point: scores are integer tenths. The float sums of the source reach the 3.0 and 7.0 thresholds exactly where the tenths do. For example, 2.0 + 0.3 + 0.7 evaluates to 3.0 in binary floating point. So every reject / accept decision agrees.
- Timestamps: `checked_at` and `processing_time_seconds` are dropped, so the records have no timestamp field.
- Where a validation raises: the model does not say which probe raised. A raise is an input of the endpoints (`Attempt.failure`). In the source a raise always happens before the cache write, so a raising validation leaves the store unchanged.
- The outer `except` of the batch endpoint is not modelled. Nothing in the modelled loop can raise outside a single validation, so the batch's own 500 is never produced.
- The `except` branch of the invalidation endpoint is not modelled either. The cache swallows its own errors, so that branch is never taken.
- The health and cache-stats routes are left out as plain routing; `GetCacheStats` models the logic behind the stats route.
- The admin endpoints and the database records of `app/models/database.py` are left out: `validate_domain` never reads them.
- FastAPI routing, configuration loading, the startup scripts, the command-line batch checker and the live-network harnesses are left out.
- Entries written by others: the lemmas that speak of the domain a cached result carries (`ValidateNormalisesDomain`, `BatchDomains`, `BatchKeepsAddress`, `SuccessIsAboutRequestDomain`) assume a store written only by the validator (`StoreConsistent`). The Redis server may be shared, and an entry written by anyone else is returned as it stands.

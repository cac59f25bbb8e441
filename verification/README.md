# Veto gateway: a verified model of its decision logic

The gateway answers `/v1/check`: it authenticates a key, rate-limits, scans a text for secrets and
personal data, rewrites what it finds, returns a verdict and meters the request. This project models
that decision logic in Dafny and proves what it guarantees. `dafny verify dfyconfig.toml` checks it.

| Part | Files |
|---|---|
| Rule patterns and the leftmost-first matcher | `Regex.dfy`, `RuleTable.dfy`, `PreferredEnds.dfy`, `MatchLengths.dfy` |
| What the patterns find, without patterns | `PatternMeanings.dfy`, `Groups.dfy`, `SecretMeanings.dfy`, `PiiMeanings.dfy`, `Catalogue.dfy` |
| Redaction | `Redaction.dfy`, `Simultaneous.dfy`, `PassProperties.dfy`, `Undo.dfy`, `Shadowing.dfy` |
| Scanning again, and in which order | `UncutWords.dfy`, `Idempotence.dfy`, `Bared.dfy`, `PiiRescan.dfy`, `PiiRescanFails.dfy`, `ScanOrder.dfy` |
| What can still be matched in an answer | `BaredSurvives.dfy`, `OutOfReach.dfy`, `AnsweredText.dfy` |
| The check handler, its verdict and its analytics lists | `CheckHandler.dfy`, `Analytics.dfy` |
| Latency histogram and percentile | `Latency.dfy`, `LatencyTheorems.dfy`, `LatencyMerge.dfy` |
| Per-IP token bucket and its idle eviction | `RateLimit.dfy`, `RateLimitExact.dfy`, `RateLimitGc.dfy` |
| Metering pipeline | `Metering.dfy` |
| Per-org cap | `OrgRateLimit.dfy`, `OrgCapLifetimes.dfy` |
| Keys, hashes, the verified-key cache | `KeyLookup.dfy`, `StaticKeys.dfy`, `Auth.dfy`, `AuthAlone.dfy`, `AuthHistory.dfy` |
| Options, strings, decimals, base64 | `Wrappers.dfy`, `Strings.dfy`, `Decimal.dfy`, `Base64.dfy` |

## How it is modelled

- **Patterns.** All thirteen are written out in a small regular-expression datatype, and what each matches is proved to be
  what is said of it in plain characters, runs and word edges (`SecretMeanings`, `PiiMeanings`). `Ends` lists the
  possible ends of a match in order of preference (greedy, first alternative first); `Matches` is the
  language in its context, word boundaries included; the two are proved to agree. What the redaction
  theorems need of a pattern (no bracket, a word boundary at both edges or none at all, nothing that could match
  inside a placeholder) is computed on the expression, with soundness proved once for all expressions.
- **Redaction.** `ScanWith` is the specification of the loops in `ScanCategory`, with the rule table as
  a parameter. Theorems hold for every `SafeTable`; `CatalogueIsSafe` shows the real one is.
- **Numbers.** `float64` is `real`; `int(x)` truncates toward zero. Times are seconds.
- **Concurrency.** Metering, the per-org cap and authentication are step systems: a run is any
  interleaving of atomic steps; the two reads of a key lookup, Redis then the cloud, are two steps. Beside each
  stands the object whose methods take those steps.
- **Outside world.** What Redis, the cloud, the inference service and the clock answer are parameters
  or nondeterministic steps. SHA-256, argon2id and the short hash are arbitrary functions.

## Where the code and its documentation part

- `anthropic_key` can never fire. `openai_key` is scanned just before it and takes every match it could have
  (`gateway/rules.go:41-48`, `config/rules.go:30-31`), so an Anthropic key is reported and redacted as an
  OpenAI key, although the gateway's documentation lists `[REDACTED_ANTHROPIC_KEY]` and asks for specific
  patterns before generic ones. The model follows the code: `Shadowing.AnthropicKeyIsDead`.
- The catalogue lists secrets before personal data so that they are redacted first (`config/rules.go:13-17`), but
  the order that counts is that of the requested categories, and the default list starts with `pii`
  (`gateway/main.go:324-327`). A list finds a secret in every text that has one iff it asks for `secrets`
  and not for `pii` before that: `ScanOrder.NoSecretMissedIff`. On `sk-abcdefghijklmnopqrst@x.yz` the default
  answers "redact", with the key reported as an e-mail address, and secrets first answers "block":
  `ScanOrder.OrderDecidesVerdict`.
- Scanning twice is not always scanning once. For `secrets` it is, on every text
  (`Idempotence.SecretsAreIdempotent`). For `pii` it is iff `phone_intl`, the last rule, bares nothing: a number
  it takes may be followed directly by what another rule would match but for the missing word boundary
  (`PiiRescan.PiiIsIdempotentIff`, with a sample in `PiiRescanFails.PiiIsNotIdempotent`). A text with no plus sign
  right before a digit is safe (`PiiRescan.PiiIsIdempotentWithoutPlus`).
- An answered text may still hold a match of a requested rule, for the same reason and no other: `phone_intl` is the
  one rule that can cut a word in two (`Idempotence.OnlyIntlCuts`). With `pii` first, no secret is left, and no personal
  data iff `phone_intl` bares none; with `secrets` first, nothing of either kind is left iff it bares nothing of
  either kind (`AnsweredText.PiiFirstAnswerIsCleanIff`, `AnsweredText.SecretsFirstAnswerIsCleanIff`). The sample
  fails in both orders (`AnsweredText.SampleIsAnsweredDirty`); a text with no plus sign right before a digit in
  neither (`AnsweredText.AnswerIsCleanWithoutPlus`).
- With a burst below one token, a key's very first request is admitted and every later one refused:
  `RateLimitExact.RefusedIffExceeds` states both cases.
- A clock reading is taken before the limiter's lock, so readings may fall behind earlier ones. If none falls behind by
  more than d, evicting idle buckets is unobservable exactly when the burst is at least one token and a bucket
  refills within the idle time less twice d: `RateLimitGc.GcIsTransparentIff`. The defaults (1 per second, burst 20,
  10 minutes) tolerate a lag of 290 seconds and no more (`RateLimitGc.DefaultTolerates`); no configuration tolerates
  a lag of the whole idle time (`RateLimitGc.OutOfOrderIsObservable`).
- `phone_fr` asks for a word boundary before +33, so it takes such a number only right behind a word character
  (`PiiMeanings.PlusNeedsWordBefore`); elsewhere the number is `phone_intl`'s.
- The per-org cap holds for each lifetime of its counter (`OrgCapLifetimes.CapPerLifetime`), and the counter expires
  35 days after a first request, under the same key. So a period of length L keeps to n times the cap iff L is at
  most n times 35 days (`OrgCapLifetimes.CapHoldsIffWindow`). A static-key gateway takes its period start at
  boot and keeps it, so it outlives the first 35 days.
- The comment on the counter key speaks of about 32 days, the code sets 35; the model uses 35.

## Model

| member | source | states |
|---|---|---|
| Regex.EndsAreMatches | gateway/rules.go:29-81 | the preference-ordered matcher finds exactly the matches of the declarative meaning, for every expression, text and position |
| Regex.FindAllIsLeftmost | gateway/rules.go:109 | the spans found are matches with the preferred end, in order and disjoint, and every match whatsoever starts inside one of them |
| Regex.MatchCarries | gateway/rules.go:29-81 | a match carries over to any text that repeats it with at least the same word boundaries |
| SecretMeanings.PrivateKeyMeans | gateway/rules.go:29-32 | `private_key` matches exactly six header lines, five with a kind and one without |
| SecretMeanings.JwtMeans | gateway/rules.go:33-36 | `jwt` matches exactly three dotted runs of ten token characters or more, the first two behind eyJ, between word edges |
| SecretMeanings.AwsKeyMeans | gateway/rules.go:37-40 | `aws_access_key` matches exactly AKIA and sixteen capitals or digits between word edges |
| SecretMeanings.OpenaiKeyMeans | gateway/rules.go:41-44 | `openai_key` matches exactly sk- and twenty token characters or more between word edges |
| SecretMeanings.AnthropicKeyMeans | gateway/rules.go:45-48 | `anthropic_key` likewise with sk-ant- |
| SecretMeanings.GithubPatMeans | gateway/rules.go:49-52 | `github_pat` matches exactly one of ghp, gho, ghu, ghs and ghr, an underscore and thirty letters or digits or more, between word edges |
| PiiMeanings.EmailMeans | gateway/rules.go:54-57 | `email` matches exactly a local part, an at sign, a host, a dot and two characters of a domain or more |
| PiiMeanings.IbanMeans | gateway/rules.go:58-61 | `iban` matches exactly two capitals, two digits and ten to thirty capitals or digits between word edges |
| PiiMeanings.NirMeans | gateway/rules.go:62-65 | `nir_fr` matches exactly seven groups with at most one blank between them: 1 or 2, year, month, place (2A and 2B too), three, three and two digits, between word edges |
| PiiMeanings.SsnMeans | gateway/rules.go:66-69 | `ssn_us` matches exactly ddd-dd-dddd between word edges |
| PiiMeanings.CreditCardMeans | gateway/rules.go:70-73 | `credit_card` matches exactly four groups with a blank or hyphen between them, the last of three or four digits, or fifteen or sixteen digits, between word edges |
| PiiMeanings.PhoneFrMeans | gateway/rules.go:74-77 | `phone_fr` matches exactly 06, 07 or the same with +33, and four pairs of digits, with at most one separator before each, between word edges |
| PiiMeanings.PlusNeedsWordBefore | gateway/rules.go:74-77 | with +33, `phone_fr` matches only right behind a word character |
| PiiMeanings.PhoneIntlMeans | gateway/rules.go:78-81 | `phone_intl` matches exactly a plus sign and four or five groups of digits of the permitted lengths, with at most one separator between them |
| Catalogue.CatalogueIsAsMeant | config/rules.go:25-40 | each rule has the pattern, severity, category and placeholder of its name, and each name its rule |
| Catalogue.UnchangedIffNothingMeant | gateway/main.go:334-343 | the text is answered unchanged iff nothing that a rule of a requested category is there to find is in it, said without patterns |
| Catalogue.CatalogueFindings | gateway/rules.go:102-135 | every finding of a scan names a rule of the category, has that rule's severity and quotes what it is there to find |
| PreferredEnds.PreferredIsLongest | gateway/rules.go:29-81 | where greed decides, no match is longer than the preferred one from the same place |
| PreferredEnds.FirstAlternative | gateway/rules.go:29-81 | of two alternatives the first is preferred wherever it matches |
| PreferredEnds.FindingsAreLongest | gateway/rules.go:33-69 | where `jwt`, `aws_access_key`, `openai_key`, `anthropic_key`, `github_pat`, `email`, `iban` or `ssn_us` has a finding, nothing longer matches from the same place |
| RuleTable.TableIsSafe | gateway/rules.go:25-82 | every pattern consumes, avoids brackets, is edge-bounded or boundary-free, and cannot match inside any placeholder of the table |
| Redaction.Splice | gateway/rules.go:123-132 | the splice loop is the simultaneous replacement of the found spans by the placeholder |
| Redaction.ScanCategory | gateway/rules.go:102-135 | the findings and text of the chain of passes over the rules of the category, in table order |
| Simultaneous.StartsOnEdge | gateway/rules.go:102-135 | no match starts inside a placeholder an earlier pass inserted |
| Simultaneous.PassOnCells | gateway/rules.go:109-132 | a pass only replaces characters of the original text, never part of a placeholder |
| Simultaneous.ChainIsOneSubstitution | gateway/rules.go:102-135 | any chain of category scans is one simultaneous substitution of disjoint spans of the original text, and those spans with their placeholders are exactly the findings |
| Simultaneous.FindingsAreBrackets | gateway/rules.go:102-135 | each finding adds exactly one opening bracket to the text |
| PassProperties.PassSplits | gateway/rules.go:109-132 | what any rule can match in the text a pass leaves is what it can match in one of the pieces the pass cuts the text into, standing alone |
| PassProperties.PassKeepsQuiet | gateway/rules.go:109-132 | a pass that replaces from word boundary to word boundary exposes no match of another rule |
| PassProperties.PassLeavesNoMatch | gateway/rules.go:109-132 | a rule matches nowhere in the text its own pass leaves; a second pass changes nothing |
| PassProperties.QuietIffClean | gateway/rules.go:105-112 | a category yields no finding iff none of its rules matches anywhere in the text |
| PassProperties.FindingsAreMatches | gateway/rules.go:113-122 | a finding quotes the text of its pass between its offsets, and that is a match with the preferred end |
| Undo.RestoreUndoesSubstitute | gateway/rules.go:113-132 | putting a pass's matches back at their offsets, first to last, gives the text before the pass |
| Undo.RedactionIsReversible | gateway/rules.go:102-135 | the scanned text is a function of the findings and the redacted text |
| Undo.ChainIsReversible | gateway/main.go:334-343 | likewise for a whole chain of scans, categories repeated or not |
| UncutWords.UncutIsIdempotent | gateway/rules.go:102-135 | a category of rules whose matches never begin or end inside a word finds nothing when scanned again |
| Idempotence.SecretsAreIdempotent | gateway/rules.go:29-55 | a second scan for secrets finds nothing, whatever the text |
| Bared.LastIsIdempotentIff | gateway/rules.go:102-135 | when only a category's last rule can cut a word, a second scan finds nothing iff it bares nothing |
| PiiRescan.PiiIsIdempotentIff | gateway/rules.go:54-82 | a second scan for pii finds nothing iff no text between or after the numbers phone_intl takes begins, on its own, with a match of a pii rule |
| PiiRescan.PiiIsIdempotentWithoutPlus | gateway/rules.go:78-81 | a second scan for pii finds nothing if the text has no plus sign right before a digit |
| PiiRescanFails.PiiIsNotIdempotent | gateway/rules.go:66-81 | the sample on which the second scan finds a social security number |
| ScanOrder.NoSecretMissedIff | gateway/main.go:324-343 | a list of categories finds a secret in every text that has one iff it asks for secrets and not for pii before that; the default list does not |
| ScanOrder.OrderDecidesVerdict | gateway/main.go:324-369 | a text that the default order answers with redact, and secrets first with block |
| Shadowing.ShadowedRuleNeverFires | gateway/rules.go:105-112 | a rule whose matches are all matches of the rule scanned just before it never yields a finding |
| Shadowing.AnthropicKeyIsDead | gateway/rules.go:41-48 | no text and no category ever yields an `anthropic_key` finding |
| CheckHandler.Verdict | gateway/main.go:358-369 | not allowed iff some finding is high; block, redact or allow by which findings exist |
| CheckHandler.ActionIgnoresOrder | gateway/main.go:358-369 | findings in another order give the same action |
| CheckHandler.RunCategories | gateway/main.go:329-356 | the category loop, with unknown categories skipped and classifier failures reported as degraded |
| CheckHandler.HandleCheck | gateway/main.go:318-378 | a text of blanks is refused; otherwise the findings, text and degradations of the loop over the requested categories, or over pii, secrets and injection if none are, with their verdict |
| CheckHandler.ClassifierIsHeard | gateway/inference.go:58-71 | an injection finding iff some score is 0.5 or more, a high one iff some score is above 0.8, and one degradation for each failed call |
| CheckHandler.LoopIsChain | gateway/main.go:334-356 | the pii and secrets findings and the text do not depend on the classifier or on unknown categories |
| CheckHandler.CheckedTextIsOneSubstitution | gateway/main.go:329-356 | end to end, one substitution on the request's text at exactly the pii and secrets findings; changed iff there are any |
| CheckHandler.VerdictAgreesWithText | gateway/main.go:334-369 | allow implies an unchanged text; short of a block, redact is answered iff the text changed |
| CheckHandler.ResponseIsReversible | gateway/main.go:334-378 | the request's text is a function of the response's findings and text |
| CheckHandler.UnchangedIffClean | gateway/main.go:334-356 | the text is answered unchanged iff no rule of a requested category matches anywhere in it |
| Idempotence.OnlyIntlCuts | gateway/rules.go:29-77 | no rule but `phone_intl` takes a match that begins or ends inside a word |
| UncutWords.ScanExposesNothing | gateway/rules.go:102-135 | a scan with rules whose matches never begin or end inside a word exposes no match of any rule |
| BaredSurvives.ScanLeavesBehind | gateway/rules.go:102-135 | a match right behind a placeholder outlives the scan of a category none of whose matches begins inside it |
| OutOfReach.BoundedPiiIsOutOfReach | gateway/rules.go:29-77 | so do the matches of `iban`, `nir_fr`, `ssn_us`, `credit_card` and `phone_fr` the scan for secrets |
| AnsweredText.LastFirstAnswers | gateway/main.go:334-343 | for any table whose last rule alone can cut a word: scanned with its category first, the answer is clean of the other, and of its own iff the last rule bares none of it |
| AnsweredText.OtherFirstAnswers | gateway/main.go:334-343 | scanned with the other category first, the answer is clean of both iff the last rule bares neither |
| AnsweredText.PiiFirstAnswerIsCleanIff | gateway/main.go:324-343 | with pii first no secret can be matched in the answered text, and no personal data iff phone_intl bares none |
| AnsweredText.SecretsFirstAnswerIsCleanIff | gateway/main.go:324-343 | with secrets first nothing can be matched in the answered text iff phone_intl bares nothing |
| AnsweredText.AnswerIsCleanWithoutPlus | gateway/main.go:324-343 | in either order nothing can be matched in the answer to a text with no plus sign right before a digit |
| AnsweredText.SampleIsAnsweredDirty | gateway/rules.go:66-81 | a text that neither order answers clean |
| Analytics.FirstsIsDedup | gateway/main.go:420-447 | deduplication keeps every element once, in order of first occurrence |
| Analytics.FindingCategories | gateway/main.go:420-431 | the loop with the seen set computes the first occurrences of the categories |
| Analytics.FindingRules | gateway/main.go:435-446 | likewise for the rule names |
| Analytics.FindingPairs | gateway/main.go:452-463 | one pair for each first occurrence of a rule name |
| Analytics.PairsProjectToRules | gateway/main.go:435-463 | the pairs' rules are the rule list, in order |
| Analytics.PairsProjectToCategories | gateway/main.go:420-463 | deduplicating the pairs' categories gives the category list, in order |
| Analytics.LoopIsConsistent | config/rules.go:25-40 | in every request's findings the category is a function of the rule |
| Analytics.PairsRoundTrip | gateway/metering.go:60-67 | pairs without separators survive the joined rule:category form |
| Analytics.WireForm | gateway/metering.go:211-224 | on the wire each pair is rule, colon, category, with commas between |
| Analytics.WireKeepsEverything | gateway/metering.go:211-226 | for every request and every table with plain names, what is decoded from the wire is its pairs, and gives its rules and categories |
| Analytics.RequestsKeepEverything | config/rules.go:25-40 | so it is with the real catalogue |
| Latency.BucketForLatency | config/latency.go:26-33 | the smallest bucket bound the latency fits into, the infinity bucket if none |
| Latency.BucketIsSmallest | config/latency.go:22-33 | that is the least of the nine bounds that holds the latency, and the sentinel if none does |
| Latency.PercentileFromBuckets | config/latency.go:54-99 | the interpolated value in the first bucket whose running count reaches the clamped rank |
| Latency.InterpolationIsLinear | config/latency.go:54-92 | an empty histogram reports 0; otherwise the report's part of the bucket the rank falls into, rounded down, is the rank's part of its count, the infinity bucket ending at five times the last bound |
| Latency.FallbackIsLastBound | config/latency.go:93-98 | the fallback answers the last bound that is not the sentinel, 0 if there is none |
| Latency.WalkToRank | config/latency.go:73-98 | the main loop and the fallback loop, for any list of buckets |
| Latency.PickHits | config/latency.go:76-92 | on an ascending histogram some bucket is always hit, so the fallback loop never runs |
| Latency.PercentileInBucket | config/latency.go:76-89 | the interpolation fraction stays in [0, 1] and the report inside the hit bucket |
| Latency.PercentileIsMonotone | config/latency.go:62-89 | a higher target never reports less, clamps included |
| LatencyTheorems.PicksTrueBucket | config/latency.go:22-92 | the hit bucket is the bucket of the true nearest-rank sample |
| LatencyTheorems.PercentileIsAccurate | config/latency.go:22-92 | report and true order statistic lie in the same bucket; above 5000 the report is in [5000, 25000] |
| LatencyTheorems.SortedHasRank | config/latency.go:54-92 | the k-th sorted sample is the nearest-rank order statistic |
| LatencyMerge.MergedPercentileIsBetween | config/latency.go:5-9 | the percentile of a count-wise sum lies between the two percentiles, for every target |
| RateLimit.IpLimiter.Allow | gateway/ratelimit.go:43-63 | the answer and the whole new map |
| RateLimit.IpLimiter.Gc | gateway/ratelimit.go:74-80 | exactly the idle buckets are gone, the rest untouched |
| RateLimit.KeysAreIndependent | gateway/ratelimit.go:43-83 | a key's bucket depends only on its own calls and the ticks |
| RateLimitExact.LevelIsLeastSpare | gateway/ratelimit.go:52-62 | the level at a call is the least, over all earlier starting points, of burst plus refill less admissions |
| RateLimitExact.RefusedIffExceeds | gateway/ratelimit.go:43-63 | a call is refused iff admitting it would exceed burst + rps * elapsed from some call up to it, timestamps in any order; below a burst of one only the first call is admitted |
| RateLimitExact.StretchesAreBounded | gateway/ratelimit.go:43-63 | the rate bound on every stretch that ends in an admission |
| RateLimitExact.SharedAnswer | gateway/ratelimit.go:43-63 | a call to the shared limiter is answered as if its key had the limiter to itself |
| RateLimitGc.GcIsUnobservable | gateway/ratelimit.go:65-83 | with readings no more than d behind, a burst of at least one token, and rps * (idleTTL - 2d) at least the burst, eviction changes no answer |
| RateLimitGc.GcIsObservable | gateway/ratelimit.go:65-83 | otherwise there is a run with readings no more than d behind on which it does |
| RateLimitGc.GcIsTransparentIff | gateway/ratelimit.go:65-83 | the exact condition for eviction to go unnoticed, for every lag, every positive rate and every burst |
| RateLimitGc.DefaultTolerates | gateway/ratelimit.go:32-38 | with the default rate, burst and idle time, exactly the lags up to 290 seconds |
| RateLimitGc.OutOfOrderIsObservable | gateway/ratelimit.go:65-83 | readings as late as the idle time are too late for every configuration |
| Metering.StepKeepsInv | gateway/metering.go:115-242 | every step of emitters, worker and ticker keeps the invariant |
| Metering.NothingIsUnaccounted | gateway/metering.go:115-242 | in every reachable state each emitted event is queued, in flight, published or counted once; the queue is bounded; dequeued events are a prefix of the accepted |
| Metering.OnlyCancelEndsTheLoop | gateway/metering.go:147-193 | in every reachable state the worker is in drain or has returned, and the ticker has stopped, only if the context is done; and every logged delta is positive |
| Metering.LoopProgresses | gateway/metering.go:147-164 | uncancelled, with an event queued or in hand the worker has a step, each of its steps brings an event closer to being settled, and it stays in the loop |
| Metering.QueueTakesInOrDrops | gateway/metering.go:115-126 | an event is taken in while fewer than 4096 are queued and dropped only while exactly 4096 are |
| Metering.RunsOnlyGrow | gateway/metering.go:69-82 | histories only grow, counters never fall, a returned worker settles nothing more |
| Metering.DrainSettlesEverything | gateway/metering.go:195-206 | when drain returns every event accepted so far is published or a counted XADD drop, in order; later ones stay queued |
| Metering.DeltasSumToLastTick | gateway/metering.go:170-193 | in every reachable state the logged deltas of each counter add up to its value at the last tick |
| Metering.DrainProgresses | gateway/metering.go:195-206 | without new events drain always has a step, and each one brings its return closer |
| Metering.Metering.Emit | gateway/metering.go:115-126 | accepts below capacity, else drops and counts, as the corresponding steps |
| Metering.Metering.Publish | gateway/metering.go:208-242 | settles the event as published, or as a counted XADD drop |
| Metering.Metering.Drain | gateway/metering.go:195-206 | undisturbed, settles the whole queue in order and counts exactly the failed XADDs |
| Metering.StatsLoop.Tick | gateway/metering.go:181-191 | a tick takes its four steps: each delta is logged iff positive, and the deltas then add up to the counter |
| OrgRateLimit.RateKeyIsInjective | gateway/orgratelimit.go:69-71 | two (org, period) pairs never share a counter, colons in the org included |
| OrgRateLimit.StepKeepsTally | gateway/orgratelimit.go:81-112 | INCR, EXPIRE and compare steps keep the numbers given out increasing and equal in count to the counter |
| OrgRateLimit.CapIsNeverExceeded | gateway/orgratelimit.go:81-112 | under every interleaving within 35 days, no more than the cap are admitted on a number INCR gave |
| OrgRateLimit.IncrCountsUp | gateway/orgratelimit.go:90-94 | with no applied INCR lost, the k-th successful INCR returns k |
| OrgRateLimit.RefusedIffOverLimit | gateway/orgratelimit.go:106-111 | in every run, whatever the times, a decided request is refused iff it has a limit and INCR answered more; one without a limit never is |
| OrgRateLimit.ExactlyCapAdmitted | gateway/orgratelimit.go:81-112 | n successful INCRs under one cap admit exactly min(n, cap) |
| OrgCapLifetimes.CapPerLifetime | gateway/orgratelimit.go:81-112 | with no assumption about time, at most the cap are admitted for each lifetime of the counter |
| OrgCapLifetimes.CapOverWindow | gateway/orgratelimit.go:97-104 | within n times 35 days, at most n times the cap |
| OrgCapLifetimes.CapHoldsIffWindow | gateway/orgratelimit.go:97-104 | every run in a window keeps to n times the cap iff the window is at most n times 35 days, for every cap |
| OrgRateLimit.OrgRateLimiter.Bump | gateway/orgratelimit.go:90 | the store's INCR, which starts an expired key over |
| OrgRateLimit.OrgRateLimiter.CheckAndIncrement | gateway/orgratelimit.go:81-112 | one uninterrupted request is its INCR, EXPIRE and compare steps; a tier other than free is always allowed, free iff the count is at most 10000; a failed INCR fails open, applied or not; the first count of a counter gives it 35 days |
| KeyLookup.ParseInvertsMint | gateway/keylookup.go:135-140 | exactly the minted forms are accepted, with the prefix and the last four characters of the body; two keys share a lookup slot iff these agree |
| KeyLookup.ParamsRoundTrip | gateway/keylookup.go:160-163 | scanning printed parameters gives them back, or fails if one is too wide for its field |
| KeyLookup.HashRoundTrip | gateway/keylookup.go:149-177 | a printed hash is refused exactly below the floor, else verifies iff the hash function gives the key |
| KeyLookup.CheckedMeans | gateway/keylookup.go:149-177 | a stored string is checked iff it names argon2id and v=19 with readable parameters of at least 64 MiB, one pass and two lanes and decodable salt and key; it then matches iff the hash function gives the key |
| Base64.DecodeUndoesEncode | gateway/keylookup.go:168-175 | unpadded base64 (section 4 of RFC 4648) decodes what it encodes |
| Base64.AlphabetIsStandard | gateway/keylookup.go:168-175 | the alphabet is that of table 1 of RFC 4648 |
| Base64.DecodesIff | gateway/keylookup.go:168-175 | a text is decoded iff, line breaks apart, it is in the alphabet and not one character too long |
| StaticKeys.MonthStart | gateway/staticauth.go:48-51 | the loop ends on the first of the current month, the right number of seconds back |
| StaticKeys.DayBeforeIsOneDay | gateway/staticauth.go:49-51 | stepping back a day is 86400 seconds, across month ends, leap years and year ends |
| StaticKeys.UnixCounts | gateway/staticauth.go:48-51 | Unix seconds in closed form, zero at the start of 1970 |
| StaticKeys.ParseStaticKeys | gateway/staticauth.go:42-96 | a table iff every entry is blank or good and no key repeats, with the month's start in every entry; else the first offending entry and why |
| StaticKeys.MeaningIsUnique | gateway/staticauth.go:42-96 | that description determines the result |
| StaticKeys.PrintRoundTrip | gateway/staticauth.go:42-96 | distinct valid triples print and parse back to exactly their table |
| StaticKeys.SegmentMeans | gateway/staticauth.go:53-82 | how one entry reads: skipped iff blank, else refused for its fields, key, organisation or tier, else its three trimmed fields |
| StaticKeys.AcceptedIsComplete | gateway/staticauth.go:53-95 | an accepted text yields one entry per non-blank segment, with its organisation, tier and derived ids, no hash and the month's start |
| Auth.VerifiedCache.Get | gateway/cache.go:29-31 | a stored entry no older than the time to live, under the plaintext's digest |
| Auth.VerifiedCache.Put | gateway/cache.go:33-35 | stores the entry under the digest, drops at most other entries, keeps the size bound |
| Auth.OneKeyIsPresented | gateway/main.go:208-211 | every pair of headers presents exactly one key: a nonempty X-Veto-Key, else the bearer token, else the authorization as it stands |
| Auth.Authenticate | gateway/main.go:206-264 | the answer is the presented key's: of the static table, if there is one; else a cache hit, or the uncached decision, cached iff it admits |
| Auth.UncachedMeans | gateway/main.go:232-262 | the uncached decision: a malformed key is refused; a filed one, by Redis or else the cloud, is allowed iff it verifies; one not filed is refused, unless the cloud had to be asked and could not |
| Auth.StepKeepsInv | gateway/main.go:206-264 | every step of any number of concurrent requests, the two reads of a lookup included, keeps each cached and admitted entry justified |
| AuthAlone.UndisturbedRequest | gateway/main.go:206-264 | a request whose steps nobody interrupts is answered from the cache, else as the uncached path decides, and stored iff that admits |
| AuthAlone.NoRequestIsStuck | gateway/main.go:206-264 | in every reachable state an unanswered request has a next step, which brings its answer closer |
| AuthHistory.AdmissionsAreJustified | gateway/main.go:228-262 | every admission rests on an uncached admission of the same key with the same entry, put at most 60 s earlier, on Redis and then the cloud as they stood between that request's arrival and its Put |
| AuthHistory.RevokedKeyRunsOut | gateway/main.go:228-262 | once a key is gone from both backends it is admitted only from a Put at most 60 s old, by a request that had arrived before |
| Auth.CacheAgreesWithSlowPath | gateway/main.go:228-262 | if the backend is what it was when the cached entry was resolved, the uncached path admits with that entry |
| AuthHistory.AdmittedHashesMeetFloor | gateway/keylookup.go:149-177 | over all runs, an admitted key is well formed and was verified with parameters at the floor or above |

## Left out

- HTTP routing, middleware, JSON, environment parsing, logging, boot and shutdown of the process.
- The boot-time check that the catalogue and the pattern table name the same rules: the joined table is written out instead.
- UTF-8: texts are sequences of characters; offsets are character positions, which for ASCII are the source's byte offsets, and blank means ASCII blank.
- Float rounding and 64-bit overflow: reals and unbounded integers.
- A finding's score, and how long the inference service took.
- Auth.VerifiedCache.Put: does not say which entry the LRU drops on overflow, because the library decides.
- AuthHistory.AdmissionsAreJustified: assumes that the presented keys do not collide under SHA-256.
- KeyLookup.HashRoundTrip: for an empty stored key it still calls the hash function, where the library does not accept length zero.
- OrgRateLimit.ExactlyCapAdmitted: needs that no INCR was applied whose reply was lost; the cap itself (CapIsNeverExceeded) does not.
- The worker's own select loop is its steps `Take` and `SeeDone`, not a method: between any two of its turns emitters and the canceller act.
- Metering.DrainProgresses: says nothing about how long an XADD takes.
- The stream's own trimming, and the fields of an event that the pipeline only passes on.
- `clientIP`, `shortHash`, tier prices and retention: nothing to prove.

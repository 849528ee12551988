# Supply Chain Guardian: a verified model

Supply Chain Guardian (`scg`) resolves every dependency a project declares to a hash, records the hashes in a
signed lockfile, and later decides whether the project and the platform's answers still match it. This project
models the parts of that program where a mistake would go unnoticed, and proves what they are for. All of it is
Dafny; `dafny verify dfyconfig.toml` checks it.

## What is modelled

**The check engine.** `ResolvePool` is `resolveUnique` as a transition system: one batch request per ecosystem
first, then one worker per distinct reference, each with a program counter, sharing eight slots, the answer
cache, the per-resolver freshness tables, the clock and the result map. The outcome and duration of every
request, the order of all steps and the moment of cancellation belong to the schedule. `PoolRuns`,
`PoolAnswers`, `PoolFailures`, `PoolCost` and `PoolCache` prove safety, progress, the provenance of answers and of
failures, cost, and what stays cached, over every schedule; `Check` is the
counting and comparing around it, with `manifest.DetectDrift` as the sequential reference; `Verdict` is the exit
code. `CheckTheorems` joins them: every schedule finds what the sequential loop finds, and exit code 0 means
that every entry was confirmed by a fresh answer for its own reference.

**The client.** `Cache`, `Platform` and `AnswerHistory` are the answer cache, specified by its history of
writes; `Client` is the retry loop and the resolver as classes over fields that change, against an oracle of
HTTP exchanges.

**The life of a baseline.** `Parser`, `Init`, `Grouping`, `Selection` and `Manifest` are the records, the
building of a lockfile, the selection diff and the validation, `Placement` what the built lockfile holds, told in
its own fields; `Json` and `Codec` the lockfile's JSON at token level from the struct tags, nil and empty slices
kept apart, and `CodecShape` the text that is written and the documents that are accepted;
`Signing` the signature and the pinned key; `AtomicWrite` the write as file effects that can fail, the deferred
removal included, or be cut off by a crash. `InitCheck` and `Lifecycle` end with: init, then check, on an
unchanged world is clean.

**The parsers.** `Npm` with `NpmOrder` and `NpmConflict`, `Pnpm`, `PyPI` with `VersionSpec`, `PythonLock` with
`PyName`, and `RepoName` are the dependency walks, key and requirement splitting, and the canonical names, over
ASCII strings (`Text`). `Dependencies` is the ending the list parsers share; it proves the promise init relies on, that every tool's
step is listed. Maps are walked by picking any remaining key, so a proved result holds for every order.

## Claims that are not true without a condition

For each of these the code is modelled as it is, a concrete input or a family of them shows the failure, and the
exact condition is proved in both directions.

- The doubling backoff overflows `time.Duration` (`Client.DefaultBackoffOverflows`); the total wait is as
  promised exactly while the last shift fits (`Client.BackoffTotal`).
- A `Retry-After` in seconds is multiplied in int64 and wraps (`Client.RetryAfterWraps`); it is understood
  exactly when the product fits (`Client.RetryAfterRoundTrip`).
- Cache keys of two ecosystems can collide (`Cache.ColonBreaksKeys`), and a batch item then answers a pair that
  is not its label (`Platform.ColonLabelAnswersAnotherReference`): exactly if one name with a colon begins the
  other (`Cache.EcosystemsCollideExactly`, `Platform.LabelsAnswerOthersExactly`).
- A call that returns can leave its temporary file behind (`AtomicWrite.FailedRemovalLeavesFile`): exactly if the
  rename did not take place and the removal, whose error is ignored, failed (`AtomicWrite.ReturnLeavesExactly`).
- A baseline disagrees with some platform exactly if a reference is used in two ecosystems, because init collects
  tools by reference alone (`InitCheck.BaselineTrueIffDetermined`).
- Two steps whose job and name join to the same text both receive each other's tools
  (`Init.CollidingKeysDuplicate`); a step holds its own tools and no others exactly if no resolved tool of another
  step shares its key (`Placement.StepHoldsOwnToolsExactly`), and entries are conserved exactly if each used key
  names one step (`Init.GroupingConservesTools`).
- An at-sign in an npm version can let two packages share a reference, and the order of a map then decides which
  one is lost (`NpmOrder.AtSignLosesPackage`): where equal references reach the same references, exactly if one
  package's name continues another's behind an at-sign and the versions fit (`NpmOrder.OrderShowsExactly`). The
  Python lock files lose a package under the same condition (`PythonLock.AtSignLosesPackage`,
  `PythonLock.AllListedExactly`).
- The npm walk descends into the first place at which it meets a name at a version. Hoisting can put that
  reference at two places with different nested packages, and the order of a map then decides whether a nested
  package is collected at all (`NpmConflict.NestingLosesPackage`). With one such reference the possible results are
  exactly what is reached without it joined with what one of its first places reaches (`NpmConflict.Outcome`,
  `NpmConflict.CanHappen`); every order is complete exactly if each first place reaches all that is not reached
  otherwise (`NpmConflict.CompleteExactly`), and all orders agree exactly if the first places make no difference
  (`NpmConflict.OrderHiddenExactly`). With several such references it depends also on which first places can come
  first together.
- A pin that follows a range on one line leaves the range in the package name (`VersionSpec.PinAfterRange`); a
  name is read back exactly if no operator looked for earlier stands behind its own (`VersionSpec.NameReadBack`).
- A `--hash` option on the line of a pin, or the backslash that continues the line, becomes part of the recorded
  version (`PyPI.HashBecomesVersion`); the version is read back exactly if, moreover, nothing but blanks follows it
  before the first comma (`VersionSpec.VersionReadBack`).
- A blank behind an outer separator survives the first normalization of a Python name (`PyName.HiddenBlank`),
  and exactly then normalizing twice differs (`PyName.NormalizedTwice`).
- An owner of digits after a colon is read as a port, and a name that itself ends in `.git` loses it: these are
  exactly the exceptions of `RepoName.SpellingsAgree`, and the second that of `RepoName.FixedPoint`.

## Where the code and its documentation disagree

The model follows the code.

- `manifest/lock.go:21-26` says that whatever is in the file is what was signed. The decoder reads one JSON
  value and never looks at what follows it (`Signing.TrailingTokensIgnored`).
- `parser/pypi.go:139-141` says that `>=` and `~=` count as pins; only `==` and `===` do.
- The first example of the lockfile format document in `doc/` shows empty secrets as an empty array; the field is
  omitted when it is empty.
- The same example shows the algorithm `ed25519`, which `manifest/trust.go:62-95` refuses.

## Model

| member | source | states |
|---|---|---|
| Cache.LookupIsNewest | platform/client.go:371-400 | Over every history of writes with a monotone clock, a lookup finds the newest value set under its key within five minutes, and nothing else |
| Cache.EvictionUnobservable | platform/client.go:386-400 | Caches that no present or future lookup can tell apart stay so when one of them evicts and the other keeps everything |
| Cache.OversizedPutDropsExpired | platform/client.go:386-400 | A write takes another entry away exactly if the cache has more than 512 entries and that one has expired |
| Cache.FoundForFiveMinutes | platform/client.go:371-400 | A value is found for five minutes after it was kept, to the nanosecond, and not longer |
| Cache.ResolveKeyInjective | platform/client.go:119-133 | For colon-free ecosystem names a cache key determines its ecosystem and reference |
| Cache.KeySpacesDisjoint | platform/client.go:119-180 | Answer keys and profile keys never collide, whatever the names |
| Cache.ColonBreaksKeys | platform/client.go:119-133 | With a colon in the ecosystem two different pairs share a key |
| Cache.EcosystemsCollideExactly | platform/client.go:119-133 | Two ecosystems have references with one key exactly if one name with a colon begins the other |
| AnswerHistory.LookupsFollowHistory | platform/client.go:119-180 | A cache hit for a pair is always the newest answer kept for that very pair within five minutes, with profiles in the same map and eviction going on |
| AnswerHistory.RememberItemsIsHistory | platform/client.go:140-163 | Keeping a batch answer adds exactly its items with a hash and without an error to that history, each under its own pair |
| Platform.ColonLabelAnswersAnotherReference | platform/client.go:140-163 | A batch item labelled with a colon is returned for a reference the platform said nothing about |
| Platform.LabelsAnswerOthersExactly | platform/client.go:140-163 | Items of one ecosystem are recalled for pairs of another exactly if one name with a colon begins the other |
| Platform.LabelAnswersItself | platform/client.go:140-163 | Within its ecosystem an item is recalled for its own reference and no other |
| Platform.RememberItemsHolds | platform/client.go:140-163 | Keeping a batch answer makes each of its usable items available until the given instant and takes away no other valid answer |
| ResolvePool.StepSafe | cmd/scg/check.go:216-282 | Every step keeps the slot count equal to the workers that own a slot and at most eight, each request unique, and the result map equal to what workers have written |
| PoolRuns.PoolSafety | cmd/scg/check.go:191-282 | In every run, cancelled or not, at most eight workers are between acquire and release, and each reference is asked for at most once |
| PoolRuns.Progress | cmd/scg/check.go:222-281 | Until all workers are done some step other than a cancellation is enabled: no deadlock |
| PoolRuns.RunIsBounded | cmd/scg/check.go:222-281 | Every run is finite: at most one step per batch, nine per reference, and the cancellation |
| PoolRuns.FinishedIsComplete | cmd/scg/check.go:222-281 | When the wait returns, the result map has exactly the references as keys and every slot is free |
| PoolAnswers.ResultsAreGenuine | cmd/scg/check.go:234-277 | In every reachable state a result holds, field by field, one platform answer for that reference, its freshness included, though they are read under separate locks; or the absence of a resolver; or the error its own request failed with; or the end of a cancelled context |
| PoolAnswers.FinalAnswers | cmd/scg/check.go:216-282 | Every complete clean run ends with the one map that the platform's truth determines, whatever the interleaving, batches and cache |
| PoolAnswers.PrefetchPreservesMeaning | cmd/scg/check.go:289-303 | Runs with and without the prefetch end with the same results |
| PoolAnswers.CleanRunExists | cmd/scg/check.go:216-303 | Whatever the start, some schedule is a clean run, so the theorems about clean runs speak of something |
| PoolFailures.SentByReply | cmd/scg/check.go:216-282 | Every answer on record came in a reply of the run for that very reference, or in a usable item of a batch |
| PoolFailures.RefusedByReply | cmd/scg/check.go:216-282 | Every failure on record is the error of a reply to the worker of that very reference |
| PoolFailures.FailuresAreRecorded | cmd/scg/check.go:258-277 | After the wait a reference whose request failed has that failure as its result, and no other failure of the client is there but the end of a cancelled context |
| PoolCache.AnswersAreKept | platform/client.go:119-133 | In every run of a new client an answered reference is found in the cache until five minutes after the start at least |
| PoolCost.RequestBound | cmd/scg/check.go:216-303 | Any run makes at most as many requests as there are batched ecosystems and distinct references |
| PoolCost.AttemptBound | platform/client.go:217-258 | Over HTTP each request of any run, batch or single, costs at most what its own exchanges make the loop try, exactly that if it is not interrupted, and a run at most max(1, MaxRetries) times the bound on requests |
| PoolCost.ExactCost | cmd/scg/check.go:216-303 | If batches cover their references and the time to live has not passed, a check makes exactly one request per ecosystem present that has a resolver |
| Prefetch.GroupByEcosystem | cmd/scg/check.go:290-293 | Every ecosystem present is grouped with exactly its references, in order |
| Prefetch.ListedInOrder | cmd/scg/check.go:290-293 | Such a list keeps the order of the pairs |
| Prefetch.ListedOne | cmd/scg/check.go:290-293 | And of one pair it holds the reference if the ecosystem is its own |
| Prefetch.ChooseBatches | cmd/scg/check.go:289-303 | In any order of the map, one batch goes out for exactly the ecosystems with a resolver and two references or more |
| Client.StopsAtFirstFinal | platform/client.go:217-258 | A loop that stops as Do promises has made as many attempts as the position of the first success or non-retryable error, or the limit |
| Client.BackoffTotal | platform/client.go:217-258 | Without hints n attempts wait for the base times 2^(n-1) less the base, exactly as long as the last shift fits int64 |
| Client.WaitAtMostDoubling | platform/client.go:217-258 | The closed form of the waiting below the overflow, and that it is strictly less from the overflow on |
| Client.DefaultBackoffOverflows | platform/client.go:42-49 | With the default base every retry before the 36th doubles and the 36th does not wait |
| Client.HintsReplaceBackoff | platform/client.go:217-258 | If every error carries a hint, zero included, the loop waits for exactly the sum of the hints, whatever the base |
| Client.RetryAfterRoundTrip | platform/client.go:342-351 | A Retry-After of any n written in decimal is understood as n seconds exactly when n seconds fit a duration |
| Client.RetryAfterWraps | platform/client.go:342-351 | A header of 585 years is read as 0.29 seconds and one of 293 years as no hint |
| Client.RetryAfterIsWaited | platform/client.go:226-240 | The Retry-After of a 429 is the wait before the next attempt whenever it fits a duration |
| Client.LoopOverHttp | platform/client.go:261-326 | Over HTTP the loop repeats exactly unanswered requests, server errors and 429, and stops at the first other exchange or the limit |
| Client.ReturnedOverHttp | platform/client.go:217-330 | A value is the body of an exchange of status 200 to 299, or what the destination held for 204, after nothing but repeatable exchanges; uninterrupted, the first exchange that is not repeatable decides, as such a value or as its own error, and failing that the last one's error |
| Client.HeaderIsRead | platform/client.go:342-351 | An absent or non-numeric Retry-After is no hint, and a decimal one, blanks around it or not, is its seconds whenever they fit |
| Client.NoHintIsDoubled | platform/client.go:226-240 | Without an answer, after a server error, and after a 429 without a numeric header the wait is the doubling one |
| Client.Pause | platform/client.go:226-240 | The wait ends by the timer or by the context, whichever is first, and at the first instant it can |
| Client.Loop | platform/client.go:217-258 | Against any oracle no attempt begins once the context is done; the call ends with the first final outcome or the last error after exactly the waits and the attempts' time, or with the context's error at the first instant that can be |
| Client.DoneDetermines | platform/client.go:217-258 | What the loop promises determines its attempts, waits, result and end, cancelled or not |
| Client.Client.Do | platform/client.go:217-258 | A call makes at most max(1, MaxRetries) requests with half a second as the default base, clock and counts move by what it spent, and it returns what the exchanges say |
| Client.Client.Resolve | platform/client.go:119-133 | A cached answer costs no request and changes nothing; otherwise one call about that pair is made, with all that a call promises over HTTP, and only a success is kept, under its own pair |
| Client.Client.ResolveBatch | platform/client.go:140-163 | No references, no request; otherwise one call about exactly these pairs, and exactly the usable items of a successful answer are kept |
| Client.PlatformResolver.Prefetch | platform/resolver.go:41-48 | A failed batch leaves the cache as it was; a successful one keeps its items |
| Client.PlatformResolver.Resolve | platform/resolver.go:51-93 | Every field of the resolution, and the freshness read afterwards with its age in seconds, come from the same response, cached or just received, and no other reference's freshness is touched |
| Check.UniqueIsDistinct | cmd/scg/check.go:198-213 | The references to resolve are exactly those of the entries, each once |
| Check.TallyTools | cmd/scg/check.go:202-211 | The tools of one step extend the order of first appearance and the tally by exactly themselves |
| Check.CollectUniqueRefs | cmd/scg/check.go:198-213 | The distinct pairs in order of first appearance, each with the number of entries that have it |
| Check.CompareTool | cmd/scg/check.go:330-357 | One entry adds one drift, one warning or nothing, as its answer is |
| Check.CompareEntries | cmd/scg/check.go:309-364 | Drifts and warnings are those of the entries' findings, in lockfile order |
| Check.DriftsInOrder | cmd/scg/check.go:323-361 | Drifts and warnings keep the order of the findings, and nothing is added or dropped |
| Check.OneFinding | cmd/scg/check.go:332-356 | One finding is one drift, one warning, or neither |
| Check.DetectDrift | manifest/drift.go:56-93 | The nested loop over pipelines, steps and tools is the entry-by-entry comparison, ended by the first error |
| Check.SequentialExactly | manifest/drift.go:56-93 | It succeeds exactly if every entry with a resolver resolves, and then finds exactly their drifts, with the locked and the live hash; otherwise its error is that of the first that does not |
| Verdict.ExitCodeByMarks | cmd/scg/exit.go:52-65 | Through all that an error wraps, depth first, the first reported code decides, else an operational mark anywhere, else it is a finding |
| Verdict.CountTools | cmd/scg/check.go:101-106 | The total is the number of lockfile entries |
| Verdict.Conclude | cmd/scg/check.go:99-156 | The exit code of each way the report can end |
| Verdict.Partition | cmd/scg/check.go:323-361 | Drifted, unverified and matching entries together are all the entries |
| Verdict.EmptyMeansNone | cmd/scg/check.go:323-361 | No drifts and no warnings mean no drifted and no unverified entry |
| Verdict.DriftIsCountedVerified | cmd/scg/check.go:107-117 | Any drift makes the verified count positive, so the branch for nothing verified never masks it |
| Verdict.CheckResolved | cmd/scg/check.go:99-156 | 1 for any drift, else 2 for any unverified entry, else 1 for a changed selection, else 0 |
| CheckTheorems.FinishedCovers | cmd/scg/check.go:309-364 | A finished pool has an answer for every entry that is then looked up |
| CheckTheorems.CheckCanComplete | cmd/scg/check.go:309-364 | For every lockfile whose ecosystems have resolvers, the check has a clean run from its own start |
| CheckTheorems.ScheduleIndependence | cmd/scg/check.go:216-364 | With deterministic, successful, fresh resolvers every schedule finds the same drifts in the same order as the sequential loop, and no warning |
| CheckTheorems.VerdictIsBacked | cmd/scg/check.go:99-156 | Over every schedule, cancelled or failing anywhere, 0 means every entry was confirmed by a fresh answer for its own reference, and every drift reported is one between an entry and a fresh answer for its own reference |
| CheckTheorems.FindingsAreBacked | cmd/scg/check.go:323-361 | Over every schedule the finding about each entry, its warning included, says what happened in the run to its own reference |
| CheckTheorems.FailuresAreWarned | cmd/scg/check.go:332-336 | An entry whose request failed is warned about with that failure |
| Manifest.ValidateTools | manifest/lock.go:72-79 | The tools of a step pass exactly if none has a blank reference or hash; a fault names one that has |
| Manifest.ValidateLockfile | manifest/lock.go:62-83 | A lockfile is valid exactly at version 1 without a blank reference or hash; otherwise the version, or the first entry with a blank, is named |
| Manifest.EntriesExactly | manifest/manifest.go:7-97 | The entries are exactly the tools of the steps of the pipelines |
| Selection.CompareSelection | cmd/scg/selection.go:46-91 | Whatever the order of the maps, the result lists exactly the additions, with the first declaring file, and the removals, by kind, then ecosystem, then reference |
| Sorting.StrLessExactly | cmd/scg/selection.go:81-89 | Strings are ordered by their first different character, a proper beginning before the longer string |
| Selection.ChangesDetermined | cmd/scg/selection.go:46-91 | Two results for the same input are the same list |
| Selection.NoChanges | cmd/scg/selection.go:46-91 | There is no change exactly if declared and recorded pairs agree |
| Init.CollectUniqueTools | cmd/scg/init.go:259-270 | Under every reference of a tool, and no other, the first tool that carries it |
| Init.ResolveTools | cmd/scg/init.go:273-299 | Either every tool resolves, or the error is that of the least failing reference, independent of map order |
| Init.BuildSteps | cmd/scg/init.go:331-349 | Every step of a file gets what was grouped under its key |
| Init.BuildLockfile | cmd/scg/init.go:302-355 | The nested loops build the lockfile that the properties below are about |
| Placement.BuiltFrame | cmd/scg/init.go:302-355 | The built lockfile is of version 1 and unsigned, with the path and kind of every file and the name, job and order of every step, in order; what was never appended to is nil |
| Placement.StepHoldsExactly | cmd/scg/init.go:302-355 | A step holds an entry exactly for each resolved tool of its file whose job and name join to the step's, with the tool's ecosystem and reference and its resolution's hash, algorithm and source |
| Placement.StepHoldsSecretsExactly | cmd/scg/init.go:302-355 | The same for secrets, by name and source |
| Init.GroupingConservesTools | cmd/scg/init.go:308-352 | With steps listed, a pipeline's entries number the resolved tools exactly if each used key names one step, and then are a permutation of them |
| Init.GroupingConservesSecrets | cmd/scg/init.go:308-352 | The same count and permutation for secrets |
| Init.CollidingKeysDuplicate | cmd/scg/init.go:308-352 | Job and step names that join to one key give each of two steps the other's tool |
| Placement.StepHoldsOwnToolsExactly | cmd/scg/init.go:325-349 | A step holds its own resolved tools in source order, and nothing else, exactly if no resolved tool of another step shares its key |
| Placement.StepHoldsOwnSecretsExactly | cmd/scg/init.go:310-349 | The same for secrets |
| Placement.EveryToolInItsStep | cmd/scg/init.go:308-352 | So it does if tools' steps are listed and each used key names one step |
| Placement.EverySecretInItsStep | cmd/scg/init.go:308-352 | The same for secrets |
| InitCheck.EntriesAreTools | cmd/scg/init.go:302-355 | The baseline has an entry exactly for every tool, with its reference's resolution |
| InitCheck.EntriesAreAnswers | cmd/scg/init.go:86-113 | Against a truthful platform the baseline holds an entry exactly for every tool, with the answer for the pair of the first tool that carries its reference |
| InitCheck.BaselineIsWellFormed | manifest/lock.go:62-83 | A new baseline passes validation exactly if no reference and no platform hash is blank |
| InitCheck.BaselineRecordsDeclared | cmd/scg/selection.go:46-91 | The pairs a new baseline records are exactly the pairs the files declare |
| InitCheck.BaselineTrueIffDetermined | cmd/scg/init.go:259-270 | New baselines agree with every platform exactly if each reference belongs to one ecosystem |
| InitCheck.TrueEntriesMatch | cmd/scg/check.go:309-364 | A lockfile of true entries is found clean by every clean run |
| InitCheck.InitThenCheckIsClean | cmd/scg/init.go:259-355 | On an unchanged world a new baseline is valid, shows no selection change and no drift, and ends with exit code 0 in every clean schedule |
| InitCheck.MakeBaseline | cmd/scg/init.go:86-113 | A batch goes out for exactly the ecosystems with a resolver and two references or more; no dependencies is an error of its own, an ecosystem without resolver another; otherwise the lockfile of the true resolutions is built |
| Json.ParsePrint | manifest/sign.go:76-93 | Parsing what was printed gives the value back and leaves whatever follows |
| Json.ParseSound | manifest/lock.go:46-52 | Nothing but the printed form of a value is parsed as that value |
| Codec.RoundTrip | manifest/lock.go:46-57 | Strict decoding of an encoding gives the lockfile back up to empty-versus-nil secrets |
| Codec.NormalEncoding | manifest/manifest.go:37-52 | Empty-versus-nil secrets show in no encoding |
| Codec.EncodingIsFaithful | manifest/manifest.go:7-97 | Encodings are equal exactly if the lockfiles agree up to empty-versus-nil secrets, so nil and empty show in every other slice |
| Codec.CanonicalIsFaithful | manifest/sign.go:76-93 | Canonical forms are equal exactly if the lockfiles agree on all but the signature and empty-versus-nil secrets |
| CodecShape.EncodesAs | manifest/manifest.go:7-97 | The encoding token by token: the fields in the order of the structs, source, repo, key, issuer, subject and secrets only if not empty, the signature only if there is one, null for any other nil slice |
| CodecShape.DecodesExactly | manifest/lock.go:46-52 | A text is decoded exactly if it begins with a value all of whose members, at every level, are known and of the right type |
| CodecShape.ToolIsRead | manifest/lock.go:46-52 | Each field of a tool entry is the last text under its own name, blank if there is none |
| Signing.Trusted | manifest/trust.go:99-107 | The loop over the pinned keys finds a key exactly if it is pinned |
| Signing.PinningRefinesEmbedded | manifest/trust.go:62-95 | The platform verifier accepts exactly what the embedded-key verifier accepts with the platform's algorithm and a pinned key |
| Signing.AcceptsExactly | manifest/trust.go:62-95 | The platform verifier accepts exactly a signature by its own algorithm, with a pinned key of 32 bytes, valid for the data |
| Signing.EmbeddedAcceptsExactly | manifest/sign.go:47-75 | The embedded-key verifier accepts exactly a signature by either algorithm that its own 32-byte key validates |
| Signing.RefusesExactly | manifest/trust.go:62-95 | Each refusal names the first condition that fails |
| Signing.Draft.Sign | cmd/scg/init.go:152-179 | Signing succeeds exactly if the platform answers with its own algorithm, and then changes the signature alone, to that answer; a refusal changes nothing |
| Signing.ReadLockfile | manifest/lock.go:27-58 | A file is read exactly if it is small enough, decodes strictly and is valid; each error has its exact condition or explains a fault the lockfile has |
| Json.ParseMore | manifest/lock.go:46-52 | A value that was read is read from any longer text as well, and what was added is left |
| Signing.TrailingTokensIgnored | manifest/lock.go:46-52 | Whatever text could be read, what follows its first JSON value never changes what is read |
| Signing.NormalEntries | manifest/manifest.go:37-52 | Empty-versus-nil secrets change no tool entry |
| Signing.SignedWrittenReadVerifies | manifest/sign.go:89-123 | A signed lockfile, written and read back, still verifies against the pinned keys and is the same up to empty-versus-nil secrets |
| Signing.SignatureCoversAll | manifest/sign.go:112-123 | Lockfiles that verify under one signature agree on everything else, or are two texts that one signature value fits |
| Lifecycle.BuiltIsNormal | cmd/scg/init.go:302-355 | What init builds is read back without any change |
| Lifecycle.BaselineLifecycle | cmd/scg/init.go:86-143 | Build, sign, write atomically, read, verify, compare: on an unchanged world the target holds the lockfile that was signed, it verifies, the selection is unchanged and every clean schedule ends with 0 |
| AtomicWrite.StepSafe | manifest/lock.go:115-166 | Every effect, failure of one or crash keeps each file the target can refer to complete, synced and untouched by writers |
| AtomicWrite.TargetIsComplete | manifest/lock.go:109-166 | After any prefix of any interleaving with crashes, the target holds the initial content or one writer's whole content, and survives a crash at that moment |
| AtomicWrite.ReturnLeavesExactly | manifest/lock.go:139-145 | A call that returned left its temporary file exactly if it never renamed and its removal failed; after the latest rename its content is in place |
| AtomicWrite.FailedRemovalLeavesFile | manifest/lock.go:139-145 | A failing write followed by a failing removal leaves the file |
| AtomicWrite.LoneSuccessInstalls | manifest/lock.go:115-166 | A lone writer that reports success has installed exactly its content, synced |
| AtomicWrite.CanSucceed | manifest/lock.go:115-166 | Whatever other writers have done, a call that has not begun can return success with its content in place |
| Lifecycle.CanBeWritten | manifest/lock.go:115-166 | So a lone successful write of any text exists from any start |
| Dependencies.FinishFile | parser/npm.go:43-64 | The tools come out sorted by reference, a permutation of what was collected, all labelled with the one step that is listed; strictly sorted if references are distinct |
| Dependencies.SameReferenceExactly | parser/npm.go:125-139 | Two different pairs of name and version share a reference exactly if one name continues the other behind an at-sign and the versions fit |
| Text.TailsCollideExactly | parser/npm.go:125-139 | Two versions allow such a pair of names exactly if one ends in an at-sign and the other |
| Npm.Walker.Collect | parser/npm.go:96-112 | The shared state ends as some walk, with each map in some order, leaves it |
| Npm.Walker.CollectEntry | parser/npm.go:97-111 | The same for one entry, whether it was seen before, is being walked, or is new |
| Npm.WalkedExactly | parser/npm.go:96-112 | Every walk collects only reachable tools of the tree, each reference once, and where equal references reach the same references exactly what is reachable through versioned entries |
| Npm.ParseV1 | parser/npm.go:89-94 | Every tool is an npm package that the tree names, under name@version, with its scope as owner, each reference once; and where equal references reach the same references every package named is listed |
| Npm.Parse | parser/npm.go:25-65 | The same of the file, which has the path it was read from and its tools, sorted, in one step |
| Npm.ScopeIsOwner | parser/npm.go:125-139 | The owner is the scope with its at-sign, and a name without one has none |
| NpmOrder.SeparateExactly | parser/npm.go:125-139 | References determine the records of a tree exactly if no tool's name continues another's with fitting versions |
| NpmOrder.PlainVersionsAreSeparate | parser/npm.go:125-139 | Which is so if no version has an at-sign |
| NpmOrder.CanComeFirst | parser/npm.go:96-112 | Where equal references reach the same references, every tool of the tree is collected by some order of the maps |
| NpmOrder.OneOrTheOther | parser/npm.go:96-112 | Of two tools of such a tree with one reference some order lists the first and loses the second, and some order the reverse |
| NpmOrder.OrderShowsExactly | parser/npm.go:96-112 | All orders of such a tree collect the same tools exactly if no two share a reference |
| NpmOrder.OrderDoesNotMatter | parser/npm.go:25-65 | Where equal references reach the same references and no two tools share one, every order gives the same file |
| NpmOrder.AtSignLosesPackage | parser/npm.go:96-112 | A tree of two packages of which either order loses one |
| NpmConflict.NestingLosesPackage | parser/npm.go:96-112 | A tree with one package at two places: no two tools share a reference, and a package nested in one place is collected by one order and lost by another |
| NpmConflict.Outcome | parser/npm.go:96-112 | If all references but one reach the same wherever they stand, every walk collects exactly what is reached without that one, or through one of its first places |
| NpmConflict.CanHappen | parser/npm.go:96-112 | And for each of its first places some order collects exactly that |
| NpmConflict.CompleteExactly | parser/npm.go:96-112 | No order loses a reachable reference exactly if each first place reaches all that is not reached without them |
| NpmConflict.OrderHiddenExactly | parser/npm.go:96-112 | All orders collect the same references exactly if what one first place reaches, each other does, or it is reached without them |
| NpmConflict.FilesAgree | parser/npm.go:25-65 | If no two tools share a reference, two walks collect the same references exactly if they give the same file |
| Pnpm.KeyRoundTrip | parser/pnpm.go:91-105 | An optional slash, name@version and a peer suffix are split back exactly if both parts are non-empty and the name brings no slash of its own |
| Pnpm.SplitIsSound | parser/pnpm.go:91-105 | Whatever is split has that form, with no parenthesis in either part and no at-sign in the version |
| Pnpm.CoveredExactly | parser/pnpm.go:43-66 | A package becomes a tool exactly if it has an integrity hash and a key of that form |
| Pnpm.Collect | parser/pnpm.go:43-70 | The loop leaves what some order of the keys makes of the map |
| Pnpm.CollectedExactly | parser/pnpm.go:43-70 | In any order the tools are exactly those of the map's keys, once per reference, and every other key is reported once |
| Pnpm.Parse | parser/pnpm.go:35-84 | The file lists exactly the npm packages that keys with an integrity hash name, once per reference, sorted, in one step, and reports every other key with the reason |
| Pnpm.ReferenceDeterminesTool | parser/pnpm.go:62-70 | A reference determines its record, without any condition on the keys |
| Pnpm.OrderDoesNotMatter | parser/pnpm.go:35-84 | Every order of the map gives the same tools and reports the same entries |
| VersionSpec.ParseVersionSpec | parser/pypi.go:146-170 | The loop splits at the first operator, in its order of preference, that occurs |
| VersionSpec.SpecRoundTrip | parser/pypi.go:146-170 | A name and a version written around any operator, with any blanks, are read back, and only == and === pin (PEP 440, section "Version specifiers") |
| VersionSpec.BareLine | parser/pypi.go:165-170 | A line without operators is a bare name, or not read if a blank stands inside it, and never pins |
| VersionSpec.NamelessIsUnreadable | parser/pypi.go:146-170 | What has no name before its operator is not read |
| VersionSpec.StarNeverPins | parser/pypi.go:146-170 | A version with a star is read and never pins, whatever the operator |
| VersionSpec.NameReadBack | parser/pypi.go:146-170 | A plain name before an operator is read back exactly if no operator looked for earlier stands behind it and a version does |
| VersionSpec.VersionReadBack | parser/pypi.go:146-170 | Name, version and pin are read back, whatever follows, exactly if that holds no operator looked for earlier and only blanks before its first comma |
| VersionSpec.PinAfterRange | parser/pypi.go:146-170 | A range, a comma and a pin are read as an exact pin of a package whose name contains the range |
| PyPI.StripTail | parser/pypi.go:50-69 | Comment and markers are cut one after the other, each from what the last one left |
| PyPI.Strip | parser/pypi.go:50-76 | Rewriting a line step by step yields the requirement it declares |
| PyPI.EveryRequirementAccounted | parser/pypi.go:36-101 | Tools and reported entries together number the lines that are neither blank, comment nor option |
| PyPI.SilentExactly | parser/pypi.go:36-48 | Exactly blank lines, comments, and lines with two dashes or with one of five options and a blank behind one dash are passed over |
| PyPI.DeclarationIsAccounted | parser/pypi.go:36-101 | Every line that begins with neither a hash sign nor a dash becomes a tool or a report |
| PyPI.BareNameIsReported | parser/pypi.go:77-92 | A bare name, with or without extras, comment or marker, is reported under its name as not pinned |
| PyPI.SomethingStays | parser/pypi.go:50-69 | Comment and markers never take the whole line; what begins with a marker stays |
| PyPI.Collect | parser/pypi.go:36-101 | Each such line becomes exactly one tool or one reported entry, in order |
| PyPI.Parse | parser/pypi.go:30-127 | The tools are exactly those the lines become, a permutation sorted by reference, in one step; the reports are exactly those of the lines, and both together number the declaring lines |
| PyPI.RequirementRoundTrip | parser/pypi.go:36-101 | Name, extras, operator and version, with any blanks, comment or marker after them, are recorded as that name and version for == and === and reported for every other operator |
| PyPI.TailBecomesVersion | parser/pypi.go:36-101 | Text after a pin that holds no comment, marker, bracket, comma, star or === is recorded as part of the version |
| PyPI.HashBecomesVersion | parser/pypi.go:36-101 | So are a hash option and the backslash that continues the line |
| PyName.NormalizePyPIName | parser/pythonlock.go:215-235 | The builder with its flag computes the normalized name of PEP 503, edge separators trimmed |
| PyName.PlainNames | parser/pythonlock.go:215-235 | On names without blanks it equals the PEP 503 rule with edge dashes trimmed and is idempotent |
| PyName.NormalizedTwice | parser/pythonlock.go:215-235 | On any name it is idempotent exactly if no blank stands behind the outer separators |
| PyName.HiddenBlank | parser/pythonlock.go:215-235 | A name for which it is not |
| PyName.AlikeIsOneProject | parser/pythonlock.go:209-214 | Names that differ only in case and in which separators they use are one project |
| PyName.LettersAreLowered | parser/pythonlock.go:215-235 | Without separators letters are lowered and nothing else changes |
| PyName.RunBecomesDash | parser/pythonlock.go:215-235 | A run of dots, underscores and dashes, however long, becomes one dash |
| PythonLock.IgnoredExactly | parser/pythonlock.go:95-112 | Only a name of separators, a blank version, or an editable, virtual or workspace source is passed over in silence |
| PythonLock.ListedExactly | parser/pythonlock.go:106-152 | Any other package is listed under its normalized name exactly if it has no source, a registry or a pypi one, and otherwise reported |
| Dependencies.KeptFacts | parser/pythonlock.go:95-124 | Remembering references keeps each reference once, keeps nothing else and misses none |
| Dependencies.KeptIsFirst | parser/pythonlock.go:95-124 | Exactly the first tool with each reference is kept |
| Dependencies.AllKeptExactly | parser/pythonlock.go:95-124 | Every tool is kept exactly if no two share a reference by an at-sign |
| PythonLock.Collect | parser/pythonlock.go:88-126 | Of the indexed packages the first of each reference is listed; what is not from an index is reported in order |
| PythonLock.AllListedExactly | parser/pythonlock.go:88-126 | Every indexed package is listed exactly if no two share a reference by an at-sign |
| PythonLock.AtSignLosesPackage | parser/pythonlock.go:88-126 | Of two packages that do the second is lost |
| PythonLock.Parse | parser/pythonlock.go:43-74 | The file lists exactly the first indexed package of each reference, sorted, in one step, and reports exactly those from other sources |
| PythonLock.SpellingsAreOne | parser/pythonlock.go:88-126 | Two spellings of one project at one version are one dependency |
| RepoName.AllDigits | internal/repo/repo.go:70-80 | True exactly for a non-empty string of digits |
| RepoName.RewriteColon | internal/repo/repo.go:55-63 | A colon before any slash becomes a slash, or disappears with a port |
| RepoName.Normalize | internal/repo/repo.go:46-68 | The chain of rewrites is the canonical form the two lemmas below are about |
| RepoName.SpellingsAgree | internal/repo/repo.go:46-68 | Any scheme, user, port, letter case, blanks, trailing slash and .git, and the scp-like form, give the same host/owner/name, exactly unless the owner after a colon is all digits, or the name ends in .git and no further .git follows it |
| RepoName.FixedPoint | internal/repo/repo.go:46-68 | An output is its own canonical form exactly if it does not end in .git |
| RepoName.PatternExactly | internal/repo/repo.go:42 | A name is accepted exactly if it is two or more segments joined by slashes, of letters, digits, dots, underscores and dashes, the first beginning with a letter or digit |
| RepoName.AcceptedMatches | internal/repo/repo.go:46-68 | Whatever is returned is such a name of 200 characters at most |

## Left out

- Check.DetectDrift: a drift's detail text is not modelled; it differs between the two comparisons and no decision depends on it.
- Client.Loop: a context and a timer that are ready at the same instant resolve to the context, one of the two choices Go may make.
- ResolvePool.StepSafe: the retry loop inside a worker's request is one step of the pool; its attempts are counted in `Client.Loop`.
- Codec.RoundTrip: member names match exactly and members are printed once; Go also accepts other letter case and lets the last of repeated members win.
- AtomicWrite.TargetIsComplete: making the parent directories and the path check before the write are left out.
- AtomicWrite.StepSafe: temporary names are never taken twice. `os.CreateTemp` promises only that a name is free when it is taken, so a name that a rename has freed could be taken again before the first call's deferred removal.
- Lifecycle.BaselineLifecycle: the text of the file is any rendering that lexes back to the tokens; indentation and the final newline are part of it.
- InitCheck.MakeBaseline: resolvers tell the truth here whether or not a batch came before; what a batch puts into the cache is in `Client.PlatformResolver.Prefetch`.
- NpmConflict.OrderHiddenExactly: an exact condition is proved for one reference in conflict; with several at once `NpmConflict.WalkAdds` says for each of them what a walk can add.
- Client.ReturnedOverHttp: the kinds of client error that no retry and no exit code tells apart are one, with their status; the header and body of a request are left out.
- PyPI.Parse: splitting the file into lines, with its limit on line length, is taken as done.
- InitCheck.InitThenCheckIsClean: the repository name that init may add to the pipelines is left empty.
- Timestamps (`generated_at`, `resolved_at`) are atomic text or left out; no modelled decision reads them.
- HTTP transport, URLs, TLS and response decoding are an oracle of outcomes.
- ed25519, base64 and constant-time comparison are an abstract decoder and predicate.
- YAML, TOML and JSON text below the token level; the parsers start from decoded maps and records.
- Unicode: strings are ASCII.
- The npm `packages` map of lockfile versions 2 and 3, `Pipfile.lock`, the Dockerfile and workflow parsers; only their promise that steps cover tools is used.
- Finding the repository name in flags, environment and git configuration.
- Directory discovery, command-line flags, terminal output, SARIF, secrets and policy scanning, watches and intel.
- Deadline classification and the audit command, which wrap the modelled check.

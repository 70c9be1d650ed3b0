# Verified models of the gateway's stateful cores

The gateway relays requests to many model providers, sells quota, and keeps a
good deal of state on the way: per-order payment locks, channels with many
keys, rate-limit queues, staged model lists, price tables, request bodies,
asynchronous tasks, login sessions and cached objects.  This project models
those cores in Dafny and proves what they are relied on for.  One module per
core:

| module | what it models |
|---|---|
| `OrderLock` | the reference-counted lock per trade number, as a transition system with one program counter per thread and every shared access a step of its own |
| `Payment` | Epay success callbacks, Stripe payments, expiries and async failures, and manual completions running on top of that lock, with failing database calls |
| `RateLimit` | the in-memory sliding-window limiter and its background sweep, against an unbounded log of accepted requests |
| `MultiKey`, `MultiKeyView` | multi-key channels: keys plus three sparse index maps, against a plain list of records; the paginated status view |
| `ModelNames`, `ModelSync` | the list algebra over model names, and the detect, stage and apply cycle of upstream synchronisation |
| `RatioDiff`, `ModelsDev` | the multi-pass price comparison and the epsilon-tolerant candidate selection |
| `DiskCache`, `BodyStorage` | request bodies in memory or on disk, and the global usage counters |
| `Midjourney`, `VideoTask` | polling of asynchronous tasks, compare-and-swap refunds, re-billing |
| `OggScan` | the page scan that measures an Opus file |
| `SecureVerification` | step-up verification in a login session |
| `RedisHash` | structs stored as Redis hashes |

Code that changes state is a class or a loop, proved against a function on
values; the theorems are about those functions, over every run, interleaving
or input.  Calls into the database become a row map with an answer that may be
a failure, clocks and randomness become parameters, floating point becomes
exact `real`, regular-expression matching an arbitrary predicate.

## Where the code falls short of the obvious statement

Several natural statements are false of the code as written.  Each is replaced
by the exact condition, with an input that shows the failure.

- Deleting the auto-disabled keys of a channel whose every key is auto-disabled
  deletes nothing and enables all of them: the emptied key text reads as "key
  not provided" in `Channel.Update` (`MultiKey.ActualIsIdealExactly`,
  `MultiKey.DeletingEveryKeyEnablesThem`).
- The rate limiter follows the full history if and only if the limit is at
  least one and the duration is at most one second more than the expiration
  (or no sweeper runs) (`RateLimit.AgreesExactlyWhenSound`).
- Detecting and applying everything converges if and only if no added name has
  a comma and no ignored name loses its protection
  (`ModelSync.ConvergesExactly`, `ModelSync.CommaNeverConverges`,
  `ModelSync.StruckPatternNeverConverges`).
- A name that is ignored stays away for good if and only if it does not read like
  a pattern or, as a pattern, matches itself (`ModelSync.IgnoredForGoodExactly`).
- A Midjourney task can be refunded twice.  In any run that happens exactly when
  a refunding reply wins the swap for a task that has its refund
  (`Midjourney.RunDistinctExactly`).  Where refunding replies say FAILURE and
  failed tasks stay failed, that is if and only if such a reply is applied to a
  copy that already says FAILURE (`Midjourney.AtMostOnceExactly`), as when one
  response lists a failing task twice (`Midjourney.DuplicateReplyExactly`).
  A refunding reply that keeps the status, or a failed task reported as running
  again, leads there too (`Midjourney.SwapGuardsExactly`,
  `Midjourney.RevivedTaskIsRefundedTwice`).
- Quota is conserved by a video poll if and only if no write on which it
  depends fails and no failed task is revived
  (`VideoTask.ConservesExactlyWhenSafe`, `VideoTask.UnsavedChargeIsRepeated`).
- The usage counter respects the maximum, but with the file cleanup at work the
  open disk bodies do so if and only if the configuration sends no body of
  non-zero size to disk at all: caching off, no positive maximum, or a threshold
  above it (`DiskCache.WithinMaximumExactly`, `DiskCache.CleanupLetsUsageExceed`).
- The cheapest models.dev candidate is selected if and only if the candidate kept
  when a cheapest one is visited is not above it by less than 1e-9
  (`ModelsDev.CheapestExactly`, `ModelsDev.NearTieKeepsTheEarlier`).
- A memory body and a disk body answer alike if and only if no call reads into an
  empty buffer at or past the end of the data (`BodyStorage.AgreeExactly`).
- A stored struct reads back if and only if something was stored, no pointer
  refers to an empty string, no soft-deletion time is set and no field has an
  unsupported kind (`RedisHash.RoundTripExactly`,
  `RedisHash.EmptyStringPointerIsLost`).

Where a comment and the code disagree the code is followed: the comment on
`CleanupOldDiskCacheFiles` says that statistics are not updated, but the loop
decrements them.

## Model

| member | source | states |
|---|---|---|
| `OrderLock.StepKeepsInv` | newapi/go-source/controller/topup.go:279-308 | every atomic step of LockOrder or UnlockOrder by any thread keeps: createLock has one holder, entries and mutexes are one-to-one, each thread past its lookup finds its own mutex under its trade number, owners are the holders, counts are the referencing threads |
| `OrderLock.RetireKeepsInv` | newapi/go-source/controller/topup.go:302-307 | deleting an entry whose count fell to zero strands no thread that waits on, holds or is about to count that mutex |
| `OrderLock.ReachableInv` | newapi/go-source/controller/topup.go:268-308 | the invariant holds after every schedule of any number of threads |
| `OrderLock.MutualExclusion` | newapi/go-source/controller/topup.go:279-308 | at most one thread is between the lock and the unlock of a trade number, in every interleaving |
| `OrderLock.UnlockFindsOwnMutex` | newapi/go-source/controller/topup.go:294-300 | the lookup outside createLock always returns the mutex this thread acquired and still owns; the "no entry" return is dead and no unlocked mutex is unlocked |
| `OrderLock.EntryExactlyWhenReferenced` | newapi/go-source/controller/topup.go:281-307 | a count is the number of threads between increment and decrement; referenced orders have an entry, and with createLock free every entry has a positive count |
| `OrderLock.NoOrphanMutex` | newapi/go-source/controller/topup.go:290-307 | no thread waits on or holds a mutex that has left the map |
| `OrderLock.QuiescentMapIsEmpty` | newapi/go-source/controller/topup.go:302-307 | when all threads are done the map is empty: nothing leaks |
| `OrderLock.DeadlockFree` | newapi/go-source/controller/topup.go:279-308 | while a thread is active some thread can take a step |
| `OrderLock.EveryThreadIsLetIn` | newapi/go-source/controller/topup.go:279-308 | from every reachable state every thread that has called LockOrder can come to hold its order's mutex, as its owner, and then to return from UnlockOrder |
| `OrderLock.FreeMutexIsTaken` | newapi/go-source/controller/topup.go:290 | a thread that locks a free mutex is inside and owns it |
| `OrderLock.CanEnter` | newapi/go-source/controller/topup.go:279-291 | the same from any state of the invariant: whoever holds what the thread waits for can be run until it is let in |
| `OrderLock.CanFinish` | newapi/go-source/controller/topup.go:294-308 | a thread that is inside can always run to the end of UnlockOrder |
| `Payment.StepKeepsInv` | newapi/go-source/controller/topup.go:373-408 | every handler step, transaction, lock step and new order keeps the account: handler copies agree with rows, ledger entries are distinct and match successful rows, every success is credited, unpaid or owed |
| `Payment.ReachableInv` | newapi/go-source/controller/topup.go:373-408 | that account holds after every schedule of the five callbacks with arbitrary database failures |
| `Payment.CreditedAtMostOnce` | newapi/go-source/controller/topup.go:385-405 | however the callbacks race, a trade number is credited at most once, never once failed or expired, to the order's user, by the integer part of Amount × QuotaPerUnit (for Stripe orders, of Money × QuotaPerUnit) |
| `Payment.CreditedAmount` | newapi/go-source/controller/topup.go:398-401 | every credit is the integer part of Amount × QuotaPerUnit; on Stripe orders of Money × QuotaPerUnit when completed by an administrator, and what the database rounds Money × QuotaPerUnit to when paid |
| `Payment.CallbackSettles` | newapi/go-source/controller/topup.go:373-408 | from every reachable state, whatever other handlers are doing, a callback for an order that is its to settle can arrive, get the lock and settle it: exactly that row changes, to that outcome, and a success is credited exactly once |
| `Payment.HandlerSettles` | newapi/go-source/model/topup.go:109-160 | inside the lock, with every database call succeeding, each kind of handler leaves the row settled and the credit, if any, on ledger and balance |
| `Payment.FailedCallChangesNothing` | newapi/go-source/controller/topup.go:391-405 | a failing database call changes no order, credit or balance, and a failed credit is on record |
| `Payment.OrderCanBeOpened` | newapi/go-source/controller/topup.go:248-258 | a pending order can be opened under any unused trade number |
| `Payment.SuccessIsAccountedFor` | newapi/go-source/controller/topup.go:390-405 | a successful order is credited, reported unpaid or owed by exactly one handler inside its lock, never two of these |
| `Payment.BalanceIsPaid` | newapi/go-source/controller/topup.go:398-405 | a balance is the sum of that user's credits, no more and no less |
| `Payment.StepKeepsSettledRows` | newapi/go-source/controller/topup_stripe.go:231-255 | a step leaves a row alone or settles a pending one, by the handler inside the order's lock: Epay and Stripe callbacks only their own provider's orders, each with its own outcome and nothing else changed but Epay's payment method |
| `Payment.SettledForever` | newapi/go-source/model/topup.go:82-107 | success, failed and expired are absorbing over every continuation of every run |
| `Payment.StepKeepsEpayInv` | newapi/go-source/model/topup.go:109-160 | only Epay callbacks leave an order to be credited in a later step, or unpaid |
| `Payment.PaidExactlyWhenSuccessful` | newapi/go-source/model/topup.go:109-160 | however payment, expiry, async failure and manual completion race on an order of another provider than Epay, it is successful exactly when it has been credited |
| `RateLimit.InMemoryRateLimiter.constructor` | newapi/go-source/common/rate-limit.go:14-26 | a new limiter knows no key |
| `RateLimit.InMemoryRateLimiter.Request` | newapi/go-source/common/rate-limit.go:45-70 | the queue update in place is the specified one for the accept, shift and refuse branches, queues stay non-empty, other keys are untouched |
| `RateLimit.InMemoryRateLimiter.ClearExpiredItems` | newapi/go-source/common/rate-limit.go:28-42 | one sweep removes exactly the keys whose newest accept is older than the expiration |
| `RateLimit.AcceptsIsRule` | newapi/go-source/common/rate-limit.go:49-63 | the test on the bounded queue is the rule on the whole log, whenever the queue is the live end of the log |
| `RateLimit.KeyInvHolds` | newapi/go-source/common/rate-limit.go:28-70 | over every run the queue is a suffix of the log, everything before it is too old to count, and accepts are spaced |
| `RateLimit.FollowsTheLog` | newapi/go-source/common/rate-limit.go:28-70 | with a non-decreasing clock and sweeps anywhere, a request is accepted exactly when fewer than maxRequestNum accepted requests of the full history are younger than duration |
| `RateLimit.AcceptsAreSpaced` | newapi/go-source/common/rate-limit.go:45-70 | an accept and the one maxRequestNum accepts later are at least duration apart |
| `RateLimit.AgreesExactlyWhenSound` | newapi/go-source/common/constants.go:220-221 | the limiter agrees with the rule in all runs if and only if the limit is at least one and, where a sweeper runs, duration is at most expiration + 1 |
| `RateLimit.SweepForgets` | newapi/go-source/common/rate-limit.go:31-38 | for every larger duration there is a run in which a sweep forgets requests that still count |
| `MultiKey.Channel.Update` | newapi/go-source/model/channel.go:526-573 | for any keys and maps: an empty key list keeps the stored keys, the size follows the keys, statuses beyond it are dropped (times and reasons are not), a failed write changes nothing; maps that fit are stored as they are |
| `MultiKey.Channel.DisableKey` | newapi/go-source/controller/channel.go:1595-1636 | refines setting one record's status, with the missing and out-of-range index answers |
| `MultiKey.Channel.EnableKey` | newapi/go-source/controller/channel.go:1638-1678 | refines clearing one record's status, time and reason |
| `MultiKey.Channel.EnableAllKeys` | newapi/go-source/controller/channel.go:1680-1702 | refines enabling every record, and reports how many statuses were stored |
| `MultiKey.Channel.DisableAllKeys` | newapi/go-source/controller/channel.go:1704-1749 | refines disabling exactly the enabled records, counts them, and answers "nothing to do" exactly when there is none |
| `MultiKey.Channel.DeleteKey` | newapi/go-source/controller/channel.go:1751-1829 | refines removing one record from the list; the last key is refused |
| `MultiKey.Channel.DeleteDisabledKeys` | newapi/go-source/controller/channel.go:1831-1898 | refines dropping the auto-disabled records, re-enabling everything when none would be left |
| `MultiKey.CopyKey` | newapi/go-source/controller/channel.go:1782-1800 | one round of the re-indexing loop appends exactly that key's record |
| `MultiKey.CopyRemainingKey` | newapi/go-source/controller/channel.go:1852-1867 | likewise for a key that survives the deletion of auto-disabled keys |
| `MultiKey.CopyAllBut` | newapi/go-source/controller/channel.go:1769-1801 | after re-indexing with a running index, the records are the old ones without the deleted position |
| `MultiKey.CopyNotAutoDisabled` | newapi/go-source/controller/channel.go:1832-1869 | the rebuilt keys and maps stand for exactly the records that are not auto-disabled, and the count is that of the others |
| `MultiKey.MarkAllDisabled` | newapi/go-source/controller/channel.go:1716-1728 | exactly the enabled keys change status, and they are counted |
| `MultiKey.ActualIsIdealExactly` | newapi/go-source/controller/channel.go:1831-1898 | every accepted action does the obvious thing to the records, except exactly deleting auto-disabled keys when all are |
| `MultiKey.ActionsExactly` | newapi/go-source/controller/channel.go:1595-1898 | what each accepted action makes of every key: its status, time and reason afterwards, and which keys are left |
| `MultiKey.AnswersExactly` | newapi/go-source/controller/channel.go:1595-1877 | which requests are refused and how: missing or out-of-range index, last key, nothing enabled, nothing auto-disabled |
| `MultiKey.RecordsShow` | newapi/go-source/controller/channel.go:1499-1528 | a key without an entry is enabled, and time and reason are those stored at its index |
| `MultiKey.RecordsDetermine` | newapi/go-source/controller/channel.go:1499-1528 | the list of records loses nothing of keys and maps |
| `MultiKey.CountIsNumber` | newapi/go-source/controller/channel.go:1511-1518 | a count is the number of keys with that status |
| `MultiKey.DeletingEveryKeyEnablesThem` | newapi/go-source/model/channel.go:528-537 | a concrete channel whose only key is enabled again instead of deleted |
| `MultiKey.KeptSurvive` | newapi/go-source/controller/channel.go:1840-1869 | survivors of a bulk deletion keep order, status, time and reason, and their number is the total minus the auto-disabled |
| `MultiKey.NotAutoExactly` | newapi/go-source/controller/channel.go:1840-1869 | a position survives exactly when its key is not auto-disabled |
| `MultiKey.WithoutSurvive` | newapi/go-source/controller/channel.go:1776-1801 | survivors of a single deletion are all the others, unchanged and in order |
| `MultiKey.RunAll` | newapi/go-source/controller/channel.go:1480-1898 | any sequence of actions, with any database answers, goes through the records of the abstract run |
| `MultiKey.RunKeepsKeyOrder` | newapi/go-source/controller/channel.go:1595-1898 | after any run the keys are a subsequence of the initial keys |
| `MultiKey.RunLeavesAKey` | newapi/go-source/controller/channel.go:1803-1809 | no run takes a channel's last key away |
| `MultiKeyView.GetKeyStatus` | newapi/go-source/controller/channel.go:1481-1593 | the default size, the page clamped to the first or last, totals and per-status counts over all keys, and the requested slice of the filtered list |
| `MultiKeyView.CollectAll` | newapi/go-source/controller/channel.go:1494-1543 | the list shows every record under its own index and the three counts are right |
| `MultiKeyView.Select` | newapi/go-source/controller/channel.go:1544-1555 | the filter loop yields the shown records of that status |
| `MultiKeyView.Paginate` | newapi/go-source/controller/channel.go:1556-1578 | a page past the end becomes the last, the page count is the ceiling with a minimum of one, and the slice is that page |
| `MultiKeyView.PagesCoverEverything` | newapi/go-source/controller/channel.go:1556-1578 | reading all pages yields every selected key exactly once, in order |
| `MultiKeyView.ShownExactly` | newapi/go-source/controller/channel.go:1494-1555 | a status line is shown exactly when it is that of a key with the wanted status |
| `MultiKeyView.ShowReveals` | newapi/go-source/controller/channel.go:1520-1541 | a status line shows at most ten characters of a key, and a time or reason only of a key that is not enabled |
| `MultiKeyView.ShownInOrder` | newapi/go-source/controller/channel.go:1499-1555 | lines are listed by increasing key index |
| `ModelNames.TrimTrims` | newapi/go-source/controller/channel_upstream_update.go:93-98 | a trimmed name has no space at either end, and trimming it again changes nothing |
| `ModelNames.TrimCutsSpaces` | newapi/go-source/controller/channel_upstream_update.go:93-98 | trimming cuts white space off both ends and nothing else |
| `ModelNames.NormalizeIsNormal` | newapi/go-source/controller/channel_upstream_update.go:93-98 | normalising yields distinct, non-empty, trimmed names and is idempotent |
| `ModelNames.NormalizeContains` | newapi/go-source/controller/channel_upstream_update.go:93-98 | the names kept are exactly the trimmed non-empty inputs |
| `ModelNames.UniqKeepsFirsts` | newapi/go-source/controller/channel_upstream_update.go:93-98 | of repeated names the first occurrence stays, and the order is kept |
| `ModelNames.MergeModelNames` | newapi/go-source/controller/channel_upstream_update.go:100-114 | the seen-set loop gives the base followed by the new names in their order |
| `ModelNames.MergedFacts` | newapi/go-source/controller/channel_upstream_update.go:100-114 | a merge is duplicate-free and contains exactly the names of both lists |
| `ModelNames.SubtractModelNames` | newapi/go-source/controller/channel_upstream_update.go:116-125 | the set-based filter is list subtraction in order |
| `ModelNames.IntersectModelNames` | newapi/go-source/controller/channel_upstream_update.go:127-136 | the set-based filter is list intersection in order |
| `ModelNames.StoredTextRoundTrip` | newapi/go-source/model/channel.go:289-294 | a list of non-empty comma-free names survives the comma-joined text |
| `ModelNames.JoinSplit` | newapi/go-source/model/channel.go:289-294 | splitting the stored text loses nothing |
| `ModelNames.GetModelsIsCommaFree` | newapi/go-source/model/channel.go:289-294 | no stored text ever reads back a name with a comma |
| `ModelSync.CollectPending` | newapi/go-source/controller/channel_upstream_update.go:172-231 | the loops and filters find the uncovered, unignored upstream names and the local names that upstream and mapping lack |
| `ModelSync.PendingContains` | newapi/go-source/controller/channel_upstream_update.go:189-231 | exact membership of the pending adds and removes, both duplicate-free |
| `ModelSync.OfferedExactly` | newapi/go-source/controller/channel_upstream_update.go:189-231 | a name is offered exactly when upstream lists it, it is not local, no mapping leads to it, no plain entry of the ignore list equals it and no pattern matches it |
| `ModelSync.NeverOffered` | newapi/go-source/controller/channel_upstream_update.go:198-220 | ignored names that are plain or match themselves, and mapping targets, are never offered, whatever upstream says |
| `ModelSync.IgnoredForGood` | newapi/go-source/controller/channel_upstream_update.go:830-836 | such a name, once staged and then ignored, is not offered by any later detection, after any further checks and applications |
| `ModelSync.IgnoredForGoodExactly` | newapi/go-source/controller/channel_upstream_update.go:210-216 | an ignored name stays away on every channel and in every run if and only if it is plain or, read as a pattern, matches itself |
| `ModelSync.DetectedRecords` | newapi/go-source/controller/channel_upstream_update.go:372-399 | what a check stages, when, and that it leaves ignore list and mapping alone |
| `ModelSync.Channel.Check` | newapi/go-source/controller/channel_upstream_update.go:356-403 | skipped exactly inside the minimum interval; otherwise the row is the detected one, only the check time after a failed fetch, unchanged after a failed write; the auto-added count |
| `ModelSync.Channel.Apply` | newapi/go-source/controller/channel_upstream_update.go:802-850 | the row after applying a selection, what was added, removed and left, and whether the list changed |
| `ModelSync.ApplySelected` | newapi/go-source/controller/channel_upstream_update.go:138-143 | merge and subtract with adds winning over removes |
| `ModelSync.ApplyPartitionsAdds` | newapi/go-source/controller/channel_upstream_update.go:816-836 | for every request the staged adds are exactly added ∪ ignored ∪ remaining, with remaining disjoint from the others |
| `ModelSync.ApplyPartitionsRemoves` | newapi/go-source/controller/channel_upstream_update.go:817-837 | the staged removes split into removed and remaining |
| `ModelSync.AddedNotIgnored` | newapi/go-source/controller/channel_upstream_update.go:830-833 | no model that was added stays on the ignore list |
| `ModelSync.AppliedRecords` | newapi/go-source/controller/channel_upstream_update.go:830-839 | what stays staged for adding and removing after an application, and exactly which names are ignored |
| `ModelSync.NextList` | newapi/go-source/controller/channel_upstream_update.go:823-828 | the new list is duplicate-free with set (origin ∪ add) minus (remove minus add), surviving originals first and in order |
| `ModelSync.ConvergesExactly` | newapi/go-source/controller/channel_upstream_update.go:172-231 | after detect and apply-all a second detection finds nothing, if and only if no added name has a comma and every ignored upstream name stays ignored |
| `ModelSync.DetectApplyConverges` | newapi/go-source/controller/channel_upstream_update.go:815-837 | it converges for every upstream list without commas and "regex:" names |
| `ModelSync.AutoSyncSettlesExactly` | newapi/go-source/controller/channel_upstream_update.go:380-392 | auto-sync leaves no pending add and the same pending removes, if and only if no added name has a comma |
| `ModelSync.CommaNeverConverges` | newapi/go-source/controller/channel_upstream_update.go:823-828 | an empty channel is offered a name with a comma again after applying it |
| `ModelSync.StruckPatternNeverConverges` | newapi/go-source/controller/channel_upstream_update.go:830-833 | an upstream name that reads like an ignored pattern strikes it off when added, and the name it kept out comes back |
| `RatioDiff.BuildDifferences` | newapi/go-source/controller/ratio_sync.go:536-696 | the passes over maps compute the specified difference table for every input |
| `RatioDiff.CollectModels` | newapi/go-source/controller/ratio_sync.go:542-556 | the model set is everything priced locally or upstream |
| `RatioDiff.CheckConfidence` | newapi/go-source/controller/ratio_sync.go:558-591 | a model of a channel is untrusted exactly at ratio 37.5 with completion 1 |
| `RatioDiff.CompareField` | newapi/go-source/controller/ratio_sync.go:595-641 | the flags of the channel loop decide inclusion exactly when some channel offers a differing or new value, and the item holds every channel's mark |
| `RatioDiff.CompareModel` | newapi/go-source/controller/ratio_sync.go:594-653 | a model's row lists exactly the fields that qualify |
| `RatioDiff.CompareAll` | newapi/go-source/controller/ratio_sync.go:593-654 | models without a qualifying field get no row |
| `RatioDiff.FlagChannels` | newapi/go-source/controller/ratio_sync.go:656-665 | a channel is flagged exactly when some item shows a value of it |
| `RatioDiff.PruneItem` | newapi/go-source/controller/ratio_sync.go:669-674 | unflagged channels leave both maps of an item, nothing else does |
| `RatioDiff.PruneRow` | newapi/go-source/controller/ratio_sync.go:668-688 | exactly the items with something other than "same" survive |
| `RatioDiff.Prune` | newapi/go-source/controller/ratio_sync.go:667-693 | pruning while iterating equals pruning every row and dropping the empty ones |
| `RatioDiff.RawExactly` | newapi/go-source/controller/ratio_sync.go:593-654 | before pruning an item exists exactly where a channel really differs |
| `RatioDiff.FlaggedExactly` | newapi/go-source/controller/ratio_sync.go:656-665 | a channel is flagged exactly when it differs anywhere |
| `RatioDiff.DifferencesExactly` | newapi/go-source/controller/ratio_sync.go:536-696 | sound and complete: after all pruning (model, field) is listed exactly when some channel has a value at least 1e-9 from (or otherwise unequal to) the local one, or a value where there is no local one |
| `RatioDiff.ItemExactly` | newapi/go-source/controller/ratio_sync.go:593-693 | every listed item shows the local value and names exactly the channels with a real difference anywhere, in Upstreams and in Confidence; each is shown with its own value where it differs, "same" where it does not, nothing where it has none, and is untrusted exactly at ratio 37.5 with completion 1 |
| `RatioDiff.DifferenceIsShown` | newapi/go-source/controller/ratio_sync.go:606-651 | a price that really differs is listed, with the channel's own value |
| `ModelsDev.BuildCandidate` | newapi/go-source/controller/ratio_sync.go:845-879 | a cost is usable exactly with a non-negative input, a non-negative output if any, and no paid output on a free input; negative cache costs are dropped, everything else is carried over |
| `ModelsDev.SelectCandidates` | newapi/go-source/controller/ratio_sync.go:915-944 | providers are visited in strictly sorted order and the map holds, for every model, the outcome of that visit order |
| `ModelsDev.VisitProvider` | newapi/go-source/controller/ratio_sync.go:922-943 | visiting one provider updates exactly its own models |
| `ModelsDev.SortStrings` | newapi/go-source/controller/ratio_sync.go:915-919 | sorting yields each key once, in string order |
| `ModelsDev.LessIsLexicographic` | newapi/go-source/controller/ratio_sync.go:892 | providers compare lexicographically: the first difference decides and a prefix comes first |
| `ModelsDev.ReplaceKeepsBest` | newapi/go-source/controller/ratio_sync.go:881-893 | replacing never loses the epsilon bound to any earlier candidate, although near-equality is not transitive |
| `ModelsDev.SelectedIsBest` | newapi/go-source/controller/ratio_sync.go:915-944 | for every document a candidate is selected exactly when one is offered, non-zero whenever one is, costing less than every non-zero candidate plus 1e-9; with only free ones, the first provider's |
| `ModelsDev.NearCheapestStays` | newapi/go-source/controller/ratio_sync.go:881-893 | once the candidate kept is within an epsilon of the cheapest, no later provider replaces it |
| `ModelsDev.CheapestExactly` | newapi/go-source/controller/ratio_sync.go:881-893 | the cheapest cost is selected if and only if the candidate kept when a cheapest one is visited is not nearly equal to it from above |
| `ModelsDev.CheapestWhenCostsAreApart` | newapi/go-source/controller/ratio_sync.go:881-893 | the cheapest cost is selected when no candidate costs less than an epsilon more |
| `ModelsDev.NearTieKeepsTheEarlier` | newapi/go-source/controller/ratio_sync.go:48-53 | a cheaper candidate within the epsilon is not taken, and near-equality fails to be transitive |
| `DiskCache.Stats.constructor` | newapi/go-source/common/disk_cache_config.go:72-91 | all counters start at zero |
| `DiskCache.Stats.IncrementDiskFiles` | newapi/go-source/common/disk_cache_config.go:109-113 | one file and its bytes are added, memory counters untouched |
| `DiskCache.Stats.DecrementDiskFiles` | newapi/go-source/common/disk_cache_config.go:115-123 | one file and its bytes are taken off, each clamped at zero |
| `DiskCache.Stats.IncrementMemoryBuffers` | newapi/go-source/common/disk_cache_config.go:125-129 | one buffer and its bytes are added |
| `DiskCache.Stats.DecrementMemoryBuffers` | newapi/go-source/common/disk_cache_config.go:131-135 | one buffer and its bytes are taken off, without a clamp |
| `DiskCache.Directory.CleanupOldFiles` | newapi/go-source/common/disk_cache.go:109-139 | the loop removes exactly the listed, readable files older than the maximum age and discounts each once |
| `DiskCache.CleanupRemovesExactly` | newapi/go-source/common/disk_cache.go:121-136 | a file is gone exactly when it was listed, readable and older than the maximum age |
| `DiskCache.CleanupDiscounts` | newapi/go-source/common/disk_cache.go:129-133 | a removed file takes one file and its size off the disk counters |
| `DiskCache.CreatedExactlyWhenFits` | newapi/go-source/common/body_storage.go:262-303 | without disk errors creation is refused exactly when the stream exceeds maxBytes, and otherwise stores its whole length |
| `DiskCache.DiskExactly` | newapi/go-source/common/body_storage.go:262-303 | a body goes to disk exactly when its declared length, or else its actual one, reaches the threshold and fits beside what is stored; what a disk error leads to in each case |
| `DiskCache.CloseExactly` | newapi/go-source/common/body_storage.go:187-196 | closing takes the body and its file away and nothing else, and closing again does nothing |
| `DiskCache.StepKeepsInv` | newapi/go-source/common/body_storage.go:187-196 | creating, closing (again) and cleaning keep memory counters exact and disk counters between zero and the open bodies |
| `DiskCache.CountersFollowOpenBodies` | newapi/go-source/common/disk_cache_config.go:109-134 | over every run memory counters equal the open memory bodies; disk counters are never negative and never exceed the open disk bodies, with equality in runs without cleanup |
| `DiskCache.UsageStaysWithinMaximum` | newapi/go-source/common/disk_cache_config.go:170-177 | for every configuration, with declared length at least the actual one, the usage counter never exceeds the configured maximum |
| `DiskCache.OpenBodiesStayWithinMaximum` | newapi/go-source/common/disk_cache_config.go:170-177 | without cleanup the open disk bodies themselves stay within the maximum |
| `DiskCache.WithinMaximumExactly` | newapi/go-source/common/disk_cache.go:121-136 | with cleanup anywhere, the open disk bodies stay within the maximum in all runs with honest lengths if and only if caching is off, the maximum is not positive or the threshold exceeds it |
| `DiskCache.CleanupLetsUsageExceed` | newapi/go-source/common/disk_cache.go:121-136 | for every configuration that lets a non-empty body go to disk, a run with one cleanup in which two open bodies hold twice the maximum |
| `BodyStorage.BytesReader.Read` | newapi/go-source/common/body_storage.go:47-54 | the next chunk of the data, or end of file |
| `BodyStorage.BytesReader.Seek` | newapi/go-source/common/body_storage.go:56-63 | the cursor moves to the target, or stays on a negative one or an unknown origin |
| `BodyStorage.File.Read` | newapi/go-source/common/body_storage.go:169-176 | the next chunk of the content, or end of file; an empty buffer never meets the end |
| `BodyStorage.File.Seek` | newapi/go-source/common/body_storage.go:178-185 | the offset moves to the target, or stays on a negative one or an unknown origin |
| `BodyStorage.File.ReadFull` | newapi/go-source/common/body_storage.go:217-219 | the read loop yields one contiguous chunk from the offset on, up to the end of the file |
| `BodyStorage.MemoryStorage.constructor` | newapi/go-source/common/body_storage.go:37-45 | the body is open at position zero with all the data, and counted once |
| `BodyStorage.MemoryStorage.Perform` | newapi/go-source/common/body_storage.go:47-81 | every call, empty buffers included, answers and moves as the abstract body does; only the first Close is discounted |
| `BodyStorage.DiskStorage.constructor` | newapi/go-source/common/body_storage.go:100-130 | the body is open at position zero with all the data, and counted once |
| `BodyStorage.DiskStorage.Bytes` | newapi/go-source/common/body_storage.go:198-230 | the whole content, with the cursor back where it was |
| `BodyStorage.DiskStorage.Perform` | newapi/go-source/common/body_storage.go:169-230 | every call, empty buffers included, moves as the same abstract body does; only the first Close is discounted |
| `BodyStorage.CreateFromStream` | newapi/go-source/common/body_storage.go:262-303 | memory, disk, refusal or failure as decided from length and counters; what is stored is the whole stream at position zero, and refusals count nothing |
| `BodyStorage.ObserveBoth` | newapi/go-source/common/body_storage.go:47-230 | any sequence of calls on a memory body and a disk body with the same data leaves them at the same position and state, and the answers are those AgreeExactly compares |
| `BodyStorage.AgreeExactly` | newapi/go-source/common/body_storage.go:47-230 | the answers of the two storages to a sequence of calls are equal if and only if none reads into an empty buffer at or past the end of an open body |
| `BodyStorage.BytesIsWholeBody` | newapi/go-source/common/body_storage.go:198-230 | after any calls, Bytes returns the whole body and does not move the cursor |
| `BodyStorage.NothingAfterClose` | newapi/go-source/common/body_storage.go:65-81 | after a Close every read, seek and bytes call reports closed, and closing again succeeds |
| `BodyStorage.ReadsYieldTheBody` | newapi/go-source/common/body_storage.go:47-54 | reads of any sizes yield the body from the cursor on without gap or repetition |
| `BodyStorage.SeekThenRead` | newapi/go-source/common/body_storage.go:169-185 | a read after a seek from start, position or end yields the bytes from exactly there, as many as asked for or left |
| `BodyStorage.EndMeansWholeBody` | newapi/go-source/common/body_storage.go:47-54 | reads from the start that have met the end of the file have yielded the whole body |
| `Midjourney.SkippedReplyChangesNothing` | newapi/go-source/controller/midjourney.go:241-294 | a reply judged unnecessary would change only properties and buttons, and is never one that refunds |
| `Midjourney.SkippedExactly` | newapi/go-source/controller/midjourney.go:241-294 | a reply that does not fail the task is not needed again once it is stored |
| `Midjourney.RefundsExactly` | newapi/go-source/controller/midjourney.go:160-219 | a poller with an up-to-date copy of an unfinished task refunds it exactly when it cost something and is an hour overdue or reported as failed, to its user and by its quota |
| `Midjourney.StoredFields` | newapi/go-source/controller/midjourney.go:160-211 | what the row holds after a reply that wins, field by field |
| `Midjourney.LostSwapChangesNothing` | newapi/go-source/model/midjourney.go:178-184 | a swap that finds another status, or a failing write, stores and refunds nothing |
| `Midjourney.LoadsUnfinished` | newapi/go-source/controller/midjourney.go:40-57 | a poller loads exactly the unfinished tasks, as they are |
| `Midjourney.BulkFailExactly` | newapi/go-source/controller/midjourney.go:59-70 | failing tasks in bulk fails exactly those and refunds none |
| `Midjourney.Absorb` | newapi/go-source/controller/midjourney.go:170-211 | the field assignments give the specified copy, decide the refund, and never touch user or quota |
| `Midjourney.HandledAlone` | newapi/go-source/controller/midjourney.go:153-233 | the effect of one reply on row, copy, balance and refunds, for a poller on its own, whether the quota increase succeeds or not |
| `Midjourney.Store.constructor` | newapi/go-source/controller/midjourney.go:34-57 | a store with no refund made |
| `Midjourney.Store.UpdateWithStatus` | newapi/go-source/model/midjourney.go:178-184 | the write happens exactly when the row still has the previous status |
| `Midjourney.Store.HandleReply` | newapi/go-source/controller/midjourney.go:153-233 | the code's reply handling is the step of the transition system |
| `Midjourney.Store.HandleReplies` | newapi/go-source/controller/midjourney.go:153-233 | the loop over replies is the run of those steps |
| `Midjourney.StepKeepsInv` | newapi/go-source/controller/midjourney.go:153-233 | loading, handling, paying, submitting and bulk failing keep: refunds carried out or owed are of failed rows with the right user and quota, where a winning refund says FAILURE and failed tasks stay failed |
| `Midjourney.RunKeepsInv` | newapi/go-source/controller/midjourney.go:153-233 | that holds after every interleaving of pollers with stale snapshots, duplicate replies included |
| `Midjourney.StepDistinctExactly` | newapi/go-source/controller/midjourney.go:204-219 | in any world, a step leaves each task with at most one refund exactly when it was so and the step does not win a refund of a task that has one |
| `Midjourney.RunDistinctExactly` | newapi/go-source/controller/midjourney.go:153-233 | the same over every run, with no hypothesis on the replies |
| `Midjourney.SecondRefundExactly` | newapi/go-source/controller/midjourney.go:169-217 | a task that has its refund gets a second one exactly when the write succeeds and a refunding reply meets a copy that already says FAILURE |
| `Midjourney.AtMostOnceExactly` | newapi/go-source/controller/midjourney.go:153-233 | over every interleaving in which refunding replies say FAILURE and failed tasks stay failed, each task has at most one refund if and only if no refunding reply is ever applied to a failed copy of a task that has one |
| `Midjourney.RefundedAtMostOnce` | newapi/go-source/controller/midjourney.go:204-219 | where in addition no refund is won from a copy that already says FAILURE, each task is refunded at most once, to its user, by exactly its quota, and only once failed |
| `Midjourney.BalanceIsRefunds` | newapi/go-source/controller/midjourney.go:212-219 | in every run, whatever the replies, balances are exactly the refunds paid |
| `Midjourney.SwapGuardsExactly` | newapi/go-source/controller/midjourney.go:169-217 | two pollers with the same snapshot and refunding replies refund twice exactly when the first reply leaves the status as it was |
| `Midjourney.DuplicateReplyExactly` | newapi/go-source/controller/midjourney.go:153-217 | one response listing a failing task twice refunds it twice exactly when the reply is not complete, or a timeout rewrote its reason the first time |
| `Midjourney.RevivedTaskIsRefundedTwice` | newapi/go-source/controller/midjourney.go:153-217 | a failed task reported as running and then as failed again is refunded twice |
| `VideoTask.Poller.constructor` | newapi/go-source/controller/task_video.go:127-132 | the stored task and the user's balance |
| `VideoTask.Poller.UpdateSingleTask` | newapi/go-source/controller/task_video.go:121-276 | status, progress, times, reason, charge and balance after one poll, for every combination of failing writes; unknown statuses are errors that change nothing |
| `VideoTask.Poller.Rebill` | newapi/go-source/controller/task_video.go:153-240 | the recorded charge and the balance move by opposite amounts, and only when the quota write succeeds |
| `VideoTask.ConservesExactlyWhenSafe` | newapi/go-source/controller/task_video.go:127-276 | one poll conserves balance plus outstanding charge if and only if no adjustment goes unsaved, no due refund fails and no failed task with a charge is revived |
| `VideoTask.RunConserves` | newapi/go-source/controller/task_video.go:127-276 | over every sequence of poll results, polling only unfinished tasks with all writes succeeding, balance plus outstanding charge is invariant |
| `VideoTask.FinalCost` | newapi/go-source/controller/task_video.go:241-276 | a failed task has cost its user nothing, any other exactly what the task records |
| `VideoTask.SuccessCosts` | newapi/go-source/controller/task_video.go:142-240 | a task that succeeds costs the integer part of tokens × model ratio × group ratio where both are known, else what was charged in advance, and the balance makes up the difference |
| `VideoTask.FailureRefunds` | newapi/go-source/controller/task_video.go:241-276 | a task that fails or has no status gives its charge back once; other statuses move no money |
| `VideoTask.RecordedFields` | newapi/go-source/controller/task_video.go:121-263 | progress, times and reason recorded with each status; an unknown status records nothing |
| `VideoTask.FailedWrites` | newapi/go-source/controller/task_video.go:197-273 | an unsaved task keeps its row and a failing quota write moves no money |
| `VideoTask.UnsavedChargeIsRepeated` | newapi/go-source/controller/task_video.go:188-267 | a top-up charge whose task is then not saved is charged a second time by the next poll |
| `OggScan.UnsignedOfLittleEndian` | newapi/go-source/common/audio.go:229 | little-endian bytes decode to the number they encode |
| `OggScan.EightBytesLowestFirst` | newapi/go-source/common/audio.go:229 | the eight bytes count 1, 256, 65536 and so on |
| `OggScan.GranuleRoundTrip` | newapi/go-source/common/audio.go:229 | eight bytes carry every signed granule position, negative ones included |
| `OggScan.GetOpusDuration` | newapi/go-source/common/audio.go:196-254 | the scan ends on every byte string and returns the peak over the visited positions, over 48000 |
| `OggScan.SumTable` | newapi/go-source/common/audio.go:242-245 | the page size is the sum of the segment table |
| `OggScan.PeakIsLargest` | newapi/go-source/common/audio.go:229-232 | the running maximum is the least upper bound of zero and the granule positions seen |
| `OggScan.VisitedIncreases` | newapi/go-source/common/audio.go:207-249 | the scan only moves forward and reads headers only where they fit |
| `OggScan.PageStep` | newapi/go-source/common/audio.go:219-248 | at a well-formed page the header is recognised, the granule position decoded and the scan lands just behind the payload |
| `OggScan.VisitsPages` | newapi/go-source/common/audio.go:207-249 | over any concatenation of well-formed pages (section 6 of RFC 3533), whatever precedes and follows, the visited positions are exactly the page boundaries |
| `OggScan.SkipsJunk` | newapi/go-source/common/audio.go:219-226 | leading bytes without a capture pattern are passed without a page being recognised |
| `OggScan.DurationOfPages` | newapi/go-source/common/audio.go:207-254 | the result is the larger of 0 and the maximum signed granule position, also behind junk without a capture pattern and with a short tail |
| `OggScan.CutPageCounts` | newapi/go-source/common/audio.go:228-239 | a last page cut anywhere behind its header is still visited and its granule position counts |
| `SecureVerification.SessionStore.constructor` | newapi/go-source/controller/secure_verification.go:14-26 | a new session holds none of the three keys |
| `SecureVerification.SessionStore.Save` | newapi/go-source/controller/secure_verification.go:151-153 | a failed save leaves the stored session as it was |
| `SecureVerification.SessionStore.PasskeyVerifyFinish` | newapi/go-source/controller/passkey.go:495-503 | a marker is set and any verification dropped, both or neither |
| `SecureVerification.SessionStore.ConsumePasskeyReady` | newapi/go-source/controller/secure_verification.go:157-179 | true exactly for a well-formed marker younger than 60 seconds whose deletion was saved; no marker outlives a saved attempt |
| `SecureVerification.SessionStore.SetSecureVerificationSession` | newapi/go-source/controller/secure_verification.go:145-155 | stamp and method are set and the marker dropped, all or nothing |
| `SecureVerification.SessionStore.UniversalVerify` | newapi/go-source/controller/secure_verification.go:75-143 | success exactly by an enrolled factor with a right code or a usable marker, and the session in every success and failure case |
| `SecureVerification.SessionStore.RequireSecureVerificationMethod` | newapi/go-source/controller/passkey.go:569-586 | passes exactly for a live stamp of that method; a missing or old stamp is cleared, a wrong method is not |
| `SecureVerification.SessionStore.SecureVerificationRequired` | newapi/go-source/middleware/secure_verification.go:22-84 | passes exactly for a live stamp of any method |
| `SecureVerification.StampHasGrant` | newapi/go-source/controller/secure_verification.go:145-155 | in every run a stored stamp is that of a success not cleared or replaced since |
| `SecureVerification.GrantKeepsStamp` | newapi/go-source/controller/passkey.go:571-577 | a success that stands is still stored while it is young enough |
| `SecureVerification.CheckPassesExactly` | newapi/go-source/controller/passkey.go:569-586 | with a non-decreasing clock the check passes for a method exactly when a verification by it succeeded less than 300 seconds ago and was neither cleared nor replaced since |
| `SecureVerification.MarkerHasCeremony` | newapi/go-source/controller/passkey.go:495-500 | a stored marker is that of a passkey ceremony and unused |
| `SecureVerification.CeremonyKeepsMarker` | newapi/go-source/controller/passkey.go:495-500 | an unused marker is still stored with the time of its ceremony |
| `SecureVerification.PasskeySucceedsExactly` | newapi/go-source/controller/secure_verification.go:98-113 | a passkey verification succeeds exactly when enrolled, saved, and an unused marker was set less than 60 seconds before |
| `SecureVerification.TwoFactorSucceedsExactly` | newapi/go-source/controller/secure_verification.go:86-123 | a two-factor verification succeeds exactly when enrolled, the code is right and the session is saved; no third method ever succeeds |
| `SecureVerification.TwoFactorCheckHasCode` | newapi/go-source/controller/passkey.go:569-586 | a check passed by two-factor rests on a right code given less than 300 seconds ago and not cleared or replaced since, and no check passes by a third method |
| `SecureVerification.FailedCheckClears` | newapi/go-source/controller/passkey.go:571-583 | a missing or old stamp is cleared with its method, a live stamp of another method is left |
| `SecureVerification.OneSuccessPerMarker` | newapi/go-source/controller/secure_verification.go:170-178 | the marker behind a success is set after every earlier success, so none supports two |
| `SecureVerification.PasskeyCheckHasCeremony` | newapi/go-source/controller/passkey.go:569-586 | a check passed by passkey rests on a ceremony of its own, within both time limits |
| `RedisHash.MagnitudeOfDecimal` | newapi/go-source/common/redis.go:143 | decimal digits read back as the number printed |
| `RedisHash.IntRoundTrip` | newapi/go-source/common/redis.go:209-214 | every int64 survives printing and parsing, the most negative one included |
| `RedisHash.FormatIsDecimal` | newapi/go-source/common/redis.go:143 | numbers are printed in base ten with a minus sign where negative |
| `RedisHash.ParseIntExactly` | newapi/go-source/common/redis.go:210-213 | a text is a number exactly when it is an optional sign and digits and fits 64 bits |
| `RedisHash.ParseSigned` | newapi/go-source/common/redis.go:210-213 | a sign in front changes nothing but the sign |
| `RedisHash.HSetObj` | newapi/go-source/common/redis.go:113-144 | the hash holds exactly the fields other than soft-deletion times, each with its own text |
| `RedisHash.TextOf` | newapi/go-source/common/redis.go:127-143 | nil pointers are empty, booleans and numbers are printed, pointers are followed |
| `RedisHash.TextIs` | newapi/go-source/common/redis.go:127-143 | the text of nil, strings, booleans and what a pointer refers to |
| `RedisHash.Object.constructor` | newapi/go-source/common/redis.go:161-165 | an object with the given fields |
| `RedisHash.Object.HGetObj` | newapi/go-source/common/redis.go:161-239 | fields are set up to the first that cannot be read, which is the error; an empty hash is "not found" and sets nothing |
| `RedisHash.Object.SetField` | newapi/go-source/common/redis.go:191-235 | one field by its kind; a nil pointer is allocated even when its text then fails to parse |
| `RedisHash.ReadErrors` | newapi/go-source/common/redis.go:194-234 | which texts fail in which fields, with which error, and what the field holds then |
| `RedisHash.FieldRoundTrip` | newapi/go-source/common/redis.go:191-235 | one field reads back as itself exactly when it is no pointer to an empty string, no set soft-deletion time and no unsupported kind |
| `RedisHash.ReadFromExactly` | newapi/go-source/common/redis.go:187-236 | reading succeeds exactly when every field can be read, and then every field holds what was read for it |
| `RedisHash.RoundTripExactly` | newapi/go-source/common/redis.go:113-236 | loading into a fresh object returns the original if and only if something was stored and every field survives |
| `RedisHash.EmptyStringPointerIsLost` | newapi/go-source/common/redis.go:194-203 | a struct whose pointer to "" is loaded as nil without an error |
| `RedisHash.StoreAndLoad` | newapi/go-source/common/redis.go:107-236 | the same for the two loops run one after the other |

## Left out

- Request binding, JSON responses, translations, audit records, logging, notifications, payment SDKs, signatures, WebAuthn and TOTP: input and output, or foreign libraries.
- The other payment providers (Creem, Waffo), subscription orders under the same lock, and completion times; several processes sharing a database; int overflow of the credited quota. How the database rounds a fractional Stripe quota is an arbitrary function.
- The memory model below a single load, store or counter update under createLock; fairness of Go's mutexes.
- A limiter whose limit or duration changes between requests on one key; an expiration that is not a whole number of seconds.
- ManageMultiKeys reads the channel row before it takes the channel's lock, so a lost update between two requests is possible; the refinement is of actions one after the other.
- Keys are assumed to survive the newline-joined text (no newline inside, not empty); nil and empty index maps are one thing; key previews count characters, not bytes.
- A channel row update that succeeds followed by a failing ability update counts as success.
- The cleaning of a model mapping before detection, the abilities table and the runtime caches; the mapping is taken as it is after cleaning.
- RatioDiff.DifferencesExactly: assumes distinct channel names and upstream values that are numbers or strings other than "same", without which the marks cannot be told apart.
- RatioDiff.ItemExactly: under the same assumption.
- Conversion of the selected models.dev costs into ratios, the OpenRouter conversion, rounding, and the errors for an empty or malformed document.
- BodyStorage.ObserveBoth: leaves out seeks for data or holes, whose answer depends on the file system, and I/O errors.
- BodyStorage.File.Seek: leaves out the same two origins.
- BodyStorage.DiskStorage.Perform: leaves out the same two origins.
- BodyStorage.File.ReadFull: the file never returns fewer bytes than asked before its end, as regular files do not.
- Counter update and clamp are one step; concurrent admission of two bodies that each fit can exceed the maximum. Hit counters, resets and other users of the cache directory are not modelled.
- Midjourney.RefundedAtMostOnce: assumes of replies that win that a refunding one turns a task that is not failed to FAILURE and that failed tasks are not reported otherwise; AtMostOnceExactly and the three lemmas after it say what happens without each part.
- Midjourney ids are unique; JSON parts are their serialised text; grouping by channel and fetching are left out; the timeout text is in English.
- VideoTask.RunConserves: all writes succeed and only unfinished tasks are polled; ConservesExactlyWhenSafe says what happens otherwise. Usage statistics and the choice of ratios are not modelled.
- Short reads other than at the end of the data, and seek errors, of the reader under the Ogg scan.
- Sessions are one linear state; concurrent requests with the same cookie, and the check that only marks a request as verified, are left out.
- HSET into an existing hash leaves fields of an older struct type in place; structs other than the soft-deletion time, and pointers to kinds that cannot be read, are not modelled. Time parsing is an arbitrary function.
- Relay, retry and billing internals, other audio formats, mail, monitoring, themes and constants tables: wrappers, data, or code outside these cores.

# Outception server: a verified model

A Dafny model of the parts of the Outception server that decide something over
shared state, loops or arithmetic, with proofs of what they are for. Verify it
with `dafny verify dfyconfig.toml`.

| Part | Modules | What it is |
|---|---|---|
| Provider toolkit | `SingleFlight`, `ProviderSpecs`, `ProviderRuns`, `ProviderFlights`, `Toolkit`, `FetchRuns` | Many processes refreshing one upstream: a token lock with a time to live, a daily budget that is checked and then charged, cooldown, negative cache, one retry |
| Products of the day | `Launches`, `LaunchRuns`, `LaunchCard`, `LaunchLifecycle`, `LaunchService`, `Reach`, `Labels` | The state machine of a submitted product, the slot allocator, the midnight rotation, the cached card, the counters and the chart labels |
| Backup codes | `BackupCodes`, `BackupRaces`, `Base62` | Single-use codes whose hashes are rewritten while the hash secrets rotate, one verification at a time and several at once; the checksum printer |
| API versions | `ApiVersions`, `VersionRoutes`, `SchemaPrune` | Version strings, one handler for each version, pruning the schema document by reachability |
| Bounded inflate | `BoundedInflate` | A byte cap kept while a compressed body streams in |
| Fixed windows | `ClientBudget`, `SpendWindows`, `Lockout` | Counters that open a window with their first increment |
| Health episodes | `HealthEpisodes` | A flapping condition reported as one episode |
| Checksums | `Checksums` | Luhn and the Irish PPS number, checker against generator |
| Decks and titles | `Deck`, `TitleIndex` | The default deck of a visitor, the search gate over a joined blob |

`Wrappers`, `RedisStore`, `Sets` and `Decimals` are shared.

## How it is built

Redis is a map from keys to a number and an optional expiry, read against a
clock in milliseconds. A key is there at every instant before its expiry, and
each command takes effect in one instant. Where several processes share keys,
every command is one event of a state machine and a theorem is about every
list of events, with clock ticks, crashes and new callers in between. Where one
caller runs alone, a class method changes the store and its contract says how.

The launches service is a class whose methods assign rows as the service does.
Each method is proved to take the step of one function, `Launches.Apply`, and
to raise the same error; the theorems about runs are about that function
(`LaunchRuns.Serve`, `LaunchRuns.Run`). `zlib`, HMAC and `uuid4` are contracts:
a decompressor that delivers a prefix-monotone inflation in bounded pieces,
digests that never collide, tokens that differ.

## What does not hold, and what does instead

- The daily budget is a cap exactly when callers come one at a time between
  the check and the charge (`BudgetCapsExactly`). With `n` of them there a day
  can be charged the budget plus `n - 1` (`OvershootIsReached`), for every
  budget, and never more (`BudgetOvershootBound`).
- The flight is a mutual exclusion exactly for work that takes no longer than
  the time to live of its key, `int(timeout)` seconds (`ExcludesExactly`). A
  millisecond more and two runs can be under way together
  (`OverlapIsReached`); they then started at least `int(timeout)` seconds apart,
  and the release of the late one frees nobody else's flight.
- Five products a day is kept in a run exactly when every approval found fewer
  than five on its day, those that have ended there counted
  (`FiveADayExactly`). The guard of `approve` counts only the approved and live
  ones. In runs that never approve onto a past day five a day always holds
  (`FiveADay`); with such approvals any number can pile up on one slot
  (`PastApprovalsPileUp`).
- The stored card goes stale in exactly two ways, both about a product that has
  ended and is still shown: its owner deletes it, or it is visibly edited
  (`StepKeepsCard`). Both happen (`StraysAreReached`).
- Backup codes are single-use under any schedule of secrets when verifications
  come one after the other. The row is read without a lock and written back
  whole, so `n` calls at once can all accept one code, and a stale writer of
  another code brings a spent one back (`StaleWriterRevives`); single use is sure
  exactly for one at a time (`SingleUseExactly`).
- The lockout counter stops at five exactly when verifiers come one at a time
  between their check and their count (`FiveAtMostExactly`). With `n` of them
  there it can reach `5 + n - 1` and no more.
- One rotation settles the table exactly when no approved product is overdue;
  two always do (`RotationSettles`).
- A version string such as `0999-01` does not survive parsing and printing: the
  year is printed without padding. Nor does one in the digits of another script,
  which the pattern takes as well. All others do (`ParsePrints`).
- The span bound of a client allowance is `2 * limit - 1`, one below twice the
  limit, and it is reached (`SpanBoundIsReached`).
- A `W` as the second letter of a PPS number reads as no letter at all
  (`PpsnSecondLetter`).
- The title gate agrees with the scan exactly for queries of one line
  (`GateAgreesExactly`).

## Model

| member | source | states |
|---|---|---|
| SingleFlight.ReachableKeepsInv | server/outception/net/provider.py:230-258 | In every interleaving tokens stay distinct, an unreleased run inside its time to live holds the key under its own token, every stored flight stems from a run, and runs of one key are a time to live apart where they overlap |
| SingleFlight.OverlappingRunsAreATtlApart | server/outception/net/provider.py:242-252 | Two runs of one key under way at one instant started at least int(timeout) seconds apart |
| SingleFlight.RunsWithinTtlExclude | server/outception/net/provider.py:238-252 | If every run ends within its time to live, no two runs of one key are ever under way together |
| SingleFlight.OverlapIsReached | server/outception/net/provider.py:242-252 | For every key and every timeout of a second or more, some run that outlives its time to live by a millisecond is under way for that millisecond together with another, started exactly int(timeout) seconds after it |
| SingleFlight.ExcludesExactly | server/outception/net/provider.py:238-252 | While the runs of a key take at most d, no two are under way together in any interleaving, if and only if d is at most int(timeout) seconds, or that is zero and nothing runs |
| SingleFlight.FlightTakenExactly | server/outception/net/provider.py:240-244 | SET NX finds the key taken if and only if a started, unreleased run is inside its time to live, so a dead holder never wedges a key |
| SingleFlight.ReleaseFreesOnlyItsOwn | server/outception/net/provider.py:47-50 | After a release a key is held if and only if another caller's unexpired run held it, however late the release comes |
| SingleFlight.WaitersPollBoundedly | server/outception/net/provider.py:253-258 | A waiter polls at most once every 100 ms of its timeout and never runs the work |
| FlightWaits.AcquireDecides | server/outception/net/provider.py:242-253 | In every reachable state SET NX lets the call work at once if nobody is at work on its key, makes it wait for its whole timeout from now if somebody is, and is refused below a second |
| FlightWaits.PollDecides | server/outception/net/provider.py:255-257 | In every reachable state a poll lets the waiter go if and only if nobody is at work on its key any more, and otherwise the deadline is tested next |
| FlightWaits.WaiterLeavesRightly | server/outception/net/provider.py:253-258 | In every run a waiter finished either at a poll when nobody was at work on its key, or at a test when its timeout had passed since its own failed SET NX |
| FlightWaits.AwaitHolder | server/outception/net/provider.py:253-258 | The wait loop ends at the first poll that finds the key gone, or at the first test past the deadline |
| FlightWaits.WaitersWait | server/outception/net/provider.py:253-258 | In every run a waiter goes the way of that loop, on the times and answers that it meets |
| FlightWaits.WaiterRunsTheLoop | server/outception/net/provider.py:253-258 | So it ends after as many polls as the loop |
| ProviderRuns.ReachableCounts | server/outception/net/provider.py:184-192 | In every interleaving the counter of a day is the true number of its charges, unless one of those came after the following day was over, and its expiry never falls before that |
| ProviderRuns.BudgetOvershootBound | server/outception/net/provider.py:177-192 | With at most n calls between check and charge a day is charged at most its budget plus n - 1, whatever happens on other days |
| ProviderRuns.OvershootIsReached | server/outception/net/provider.py:301-305 | For every budget above zero and every n some run with at most n calls in that gap charges the budget plus n - 1 |
| ProviderRuns.BudgetCapsExactly | server/outception/net/provider.py:301-305 | Every run with at most n calls in that gap keeps the budget if and only if n is one |
| ProviderRuns.UpstreamOnlyWhenCleared | server/outception/net/provider.py:283-348 | Upstream is asked at most twice per charge, answered or not, the second time only after a timeout; not at all by a call whose own reads saw a fresh value, a negative entry, a cooldown or a spent budget; the reported status is the one those reads and answers call for |
| ProviderRuns.ReachableKeepsCall | server/outception/net/provider.py:283-338 | What a call has read, charged and been answered fits its place in the protocol after every event of every interleaving |
| ProviderFlights.RunsAreFlights | server/outception/net/provider.py:335 | Every interleaving of fetch calls is, seen through the flight keys, an interleaving of single_flight calls with a timeout of 60 s |
| ProviderFlights.RefreshesExclude | server/outception/net/provider.py:304-335 | So two refreshes of one key are never under way together while each takes at most 60 s |
| ProviderSpecs.ClampCooldown | server/outception/net/provider.py:139-143 | A Retry-After inside the declared range is taken as it is, cut to whole seconds; one outside it becomes the nearer bound, a missing one the lower |
| ProviderSpecs.LessQuotaLongerInterval | server/outception/net/provider.py:105-117 | Less quota never shortens the interval; it is the declared one while half is left, and twelve times it below a tenth |
| ProviderSpecs.QuotaBands | server/outception/net/provider.py:105-117 | The interval is once, twice, four or twelve times the declared one, by half, a quarter and a tenth of the quota |
| Toolkit.Toolkit.ChargeBudget | server/outception/net/provider.py:184-192 | The count returned is the day's count after one more charge; the first charge sets a two-day expiry, a later one keeps it; nothing else changes |
| Toolkit.Toolkit.SetCooldown | server/outception/net/provider.py:162-165 | The provider cools for exactly the clamped seconds |
| Toolkit.Toolkit.Attempt | server/outception/net/provider.py:304-323 | The whole new store, which the row below explains; status, value and state by the last answer |
| Toolkit.AttemptEffects | server/outception/net/provider.py:304-323 | What an attempt leaves in Redis: one charge, a negative entry for 30 s exactly after an empty answer, a cooldown exactly after 429 or 5xx, and nothing else |
| Toolkit.Toolkit.Check | server/outception/net/provider.py:283-302 | The call is stopped as cached, with the value as nominal, if and only if the value's age is at most the interval; else as negative, cooling or over budget, in this order and each exactly when its own read says so; old values are stale only up to stale_for |
| Toolkit.Toolkit.Fetch | server/outception/net/provider.py:262-338 | Alone, upstream is asked if and only if no check stops the call and the flight is free; the whole new store; a value no older than the interval is served as it is and never refreshed; a second question exactly after a timeout, a cooldown exactly after 429 or 500 and above; after a wait a reload is served only if written later than the value the call came with |
| Toolkit.FetchEffects | server/outception/net/provider.py:262-338 | What that store means: one charge per refresh and never past the budget, the marks of the last answer, the own flight free again and another's left alone, nothing written without a refresh |
| FetchRuns.FetchIsARun | server/outception/net/provider.py:283-338 | In any run of the interleaved model a call that has begun can go on alone to its end; it then leaves the store and reports the status that the method does |
| LaunchRuns.ApproveFindsASlot | server/outception/launches/service.py:600-605 | After the size check the lowest free position exists, in 1 to 5 |
| LaunchRuns.StepKeepsSlots | server/outception/launches/service.py:310-688 | Every service step keeps: approved and live products have a day and a position in 1 to 5, and no two share both |
| LaunchRuns.RunKeepsSlots | server/outception/models/launch.py:40-47 | The same over every run, so the unique index is never violated |
| LaunchRuns.ApproveTakesUpToFive | server/outception/launches/service.py:588-605 | In every reachable table approve succeeds if and only if the product is submitted and its day lists fewer than five |
| LaunchRuns.OthersKeepSlots | server/outception/launches/service.py:310-416 | No step but approve moves a product onto a day or a position |
| LaunchRuns.RunKeepsDays | server/outception/launches/service.py:665-688 | In forward runs live products have reached their day, ended ones have passed it, and slots are never shared, ended products included |
| LaunchRuns.FiveADayExactly | server/outception/launches/service.py:594-605 | At no point of a run do more than five products share a day if and only if every approval found fewer than five there, ended ones counted; then the card has at most eleven items |
| LaunchRuns.FiveADay | server/outception/launches/service.py:742-759 | In forward runs that is always so: at most five approved, live or ended products share a day, and the card has at most eleven items |
| LaunchRuns.PastApprovalsPileUp | server/outception/launches/service.py:605-613 | With approvals onto yesterday, for every n some run puts n products into one slot, all on the card |
| LaunchCard.StepKeepsCard | server/outception/launches/service.py:762-768 | From a right card, a step leaves the stored card equal to card_items if and only if it is not a delete, or a visible edit, of an ended product still shown |
| LaunchCard.StraysAreReached | server/outception/launches/service.py:406-416 | For every product some run ends in each of the two, with a card that is no longer card_items |
| LaunchCard.CardStaysRight | server/outception/launches/service.py:742-768 | Over every run without those two the stored card is card_items for the day it was built for |
| LaunchCard.DeleteFromCard | server/outception/launches/service.py:406-416 | Deleting a product that is on the card always changes card_items |
| LaunchCard.EditOnCard | server/outception/launches/service.py:643-662 | An edit of a product on the card changes card_items if and only if it changes its item |
| LaunchCard.CardOrderForced | server/outception/launches/service.py:748-758 | In forward runs the ORDER BY leaves no freedom: any answer in that order is the card |
| Launches.ShownIsOfTwoDays | server/outception/launches/service.py:724-739 | Every item after the house line is a live or ended product of today or yesterday, with its name and tagline, kicker, description and icon |
| Launches.OfTwoDaysIsShown | server/outception/launches/service.py:748-758 | And every such product has an item |
| Launches.CardShowsInOrder | server/outception/launches/service.py:755-758 | Each once: today's before yesterday's, on one day the featured ones first, then the lower position |
| Launches.OrderedIsSorted | server/outception/launches/service.py:755 | The order of the rows is one that ORDER BY day DESC, featured DESC, position allows |
| LaunchCard.CardIsInOrder | server/outception/launches/service.py:748-758 | So card_items is the house line and then an answer in that order |
| LaunchLifecycle.VisibleWasApproved | server/outception/launches/service.py:592-613 | A product with a slot or a past one was approved at some call of the run |
| LaunchLifecycle.VisibleStep | server/outception/launches/service.py:66-70 | A visible product stays live or ended, an ended one stays ended, and only its owner's delete removes one, once ended |
| LaunchLifecycle.VisibleUntilDeleted | server/outception/launches/service.py:406-416 | From the first moment it is visible a product is live or ended for as long as its row exists, and a deleted one never returns |
| LaunchLifecycle.SettledIsFixed | server/outception/launches/service.py:678-685 | A rotation changes nothing if and only if no approved product is due and no live one is past |
| LaunchLifecycle.RotationSettles | server/outception/launches/service.py:665-688 | Two passes always settle; one pass settles if and only if no approved product is overdue |
| LaunchLifecycle.AfterMidnight | server/outception/launches/service.py:668-669 | In forward runs, after a settling rotation the listed products of today are exactly the live ones, and approved ones are later |
| LaunchService.LaunchService.Withdraw | server/outception/launches/service.py:310-324 | The run takes the withdraw step; errors as there |
| LaunchService.LaunchService.Update | server/outception/launches/service.py:334-403 | The run takes the update step, which always ends in submitted; a changed link that does not pass its check is refused; errors as there |
| LaunchService.LaunchService.Delete | server/outception/launches/service.py:406-416 | The run takes the delete step and the stored logo comes back; errors as there |
| LaunchService.LaunchService.NextFree | server/outception/launches/service.py:605 | The generator finds the lowest free position and never runs dry after the size check |
| LaunchService.LaunchService.Approve | server/outception/launches/service.py:588-621 | The run takes the approve step, onto a position of that day that nobody had; errors as there |
| LaunchService.LaunchService.Reject | server/outception/launches/service.py:624-640 | The run takes the reject step; errors as there |
| LaunchService.LaunchService.Edit | server/outception/launches/service.py:643-662 | The run takes the edit step, with a rebuild exactly for a changed listed product |
| LaunchService.LaunchService.RotateDay | server/outception/launches/service.py:665-688 | The loop rotates every row and returns the true numbers of products gone live and ended |
| LaunchService.LaunchService.Submit | server/outception/launches/service.py:247-284 | A new row in the queue, with its preferred day and no position, if and only if its link passes the check |
| LaunchService.LaunchService.RebuildCard | server/outception/launches/service.py:762-768 | The stored card becomes card_items and no row changes |
| Labels.DistinctLabels | server/outception/launches/service.py:498-511 | One label per name, pairwise different, each the first tried that is unused, and the name itself if and only if no earlier label took it |
| Labels.PickLabel | server/outception/launches/service.py:505-510 | The search ends after at most one label more than are used |
| Labels.AttemptsDiffer | server/outception/launches/service.py:508 | The labels tried for one name are different for different numbers |
| Labels.TriedSize | server/outception/launches/service.py:505-508 | The first n - 1 labels tried are n - 1 labels, the reason the search ends |
| Reach.BumpAddsToTotals | server/outception/launches/service.py:442-479 | An upsert adds to the totals of its own product and to nobody else's |
| Reach.Counter.RecordViews | server/outception/launches/service.py:419-430 | Each visible product shown gains one view, however often its id is repeated, a guessed id changes nothing, and the number returned is that of the products counted |
| Reach.Counter.RecordClick | server/outception/launches/service.py:433-439 | A visible product gains one click; for any other id it raises and changes nothing |
| BackupCodes.BackupCodesFactor.Verify | server/outception/auth/factors.py:253-295 | Accepts if and only if the code's stored hash is unused and under one of the secrets there are, current or not, or the legacy one; then it moves to the current secret in place and is marked used; a refusal changes nothing, and says the code is unknown exactly when no stored hash is its hash under a secret there is |
| BackupCodes.CandidatesExactly | server/outception/kit/crypto.py:53-65 | The candidates of a code are its hashes under every secret, and the bare one |
| BackupCodes.BackupCodesFactor.FindStored | server/outception/auth/factors.py:265-273 | The first candidate that is stored, or none is |
| BackupCodes.CurrentIsACandidate | server/outception/kit/crypto.py:40-65 | The hash a lookup rewrites to is one that later lookups find |
| BackupCodes.VerifyKeepsValid | server/outception/auth/factors.py:286-292 | A call keeps used hashes among code hashes without repeats, spends the accepted code and no other |
| BackupCodes.HistoryKeepsCodes | server/outception/auth/factors.py:253-295 | Under any schedule of secrets: code hashes keep number and place, and used ones grow by exactly one per acceptance |
| BackupCodes.AcceptedAtMostOnce | server/outception/auth/factors.py:279-291 | Under any schedule of secrets no code is accepted twice |
| BackupCodes.AcceptedStaysSpent | server/outception/auth/factors.py:279-291 | An accepted code stays spent for the rest of the run |
| BackupCodes.UnusedSurvives | server/outception/auth/factors.py:287-290 | Refusals of a code and attempts at other codes never change whether it is acceptable, whatever secrets they ran under |
| BackupCodes.RotationKeepsCodes | server/outception/kit/crypto.py:53-70 | After any schedule of secrets an unused code is accepted if and only if the secret its hash was stored under is still there, whichever is current |
| BackupRaces.NothingLostKeepsSingleUse | server/outception/auth/factors.py:258-292 | With the read and the write of overlapping calls interleaved, no code is accepted twice as long as every write finds the row as it was read |
| BackupRaces.RaceAcceptsTogether | server/outception/auth/factors.py:258-292 | n calls that all read before one writes all accept one code, and one use of it is on record |
| BackupRaces.StaleWriterRevives | server/outception/auth/factors.py:286-292 | With two codes left, a call for the second that read first and writes last undoes the use of the first, which is then accepted again, by calls never open at the same time |
| BackupRaces.SingleUseExactly | server/outception/auth/factors.py:258-292 | From a row with a code left, codes are single-use in every run with at most n calls between read and write if and only if n is one |
| Base62.Crc32ToBase62 | server/outception/kit/crypto.py:11-18 | The string reads back as the number, has at least six characters, and exactly six if and only if the number is below 62 to the sixth, as every 32-bit checksum is |
| Base62.SixIsEnough | server/outception/kit/crypto.py:18-29 | 62 to the fifth is below 2 to the 32, which is at most 62 to the sixth |
| Base62.PrintedOnce | server/outception/kit/crypto.py:11-18 | Two six-character strings are equal if and only if they stand for one number, so printing is injective |
| ApiVersions.PrintParses | server/outception/kit/versioning.py:48-57 | A version survives printing and parsing if and only if its year has four digits and its month at most two |
| ApiVersions.ParsePrints | server/outception/kit/versioning.py:48-57 | A version string, in the decimal digits of any script, survives parsing and printing if and only if its digits are ASCII and it does not start with a zero |
| ApiVersions.VersionOrder | server/outception/kit/versioning.py:39-46 | Versions are in a total order, the year before the month |
| ApiVersions.PrintOrder | server/outception/kit/versioning.py:39-49 | Versions of four-digit years and two-digit months are in the order of their strings |
| VersionRoutes.GroupRoutes | server/outception/kit/versioning.py:355-362 | One group per path and methods, holding its versioned routes in order |
| VersionRoutes.ClaimVersions | server/outception/kit/versioning.py:399-410 | A route claims its supported versions if and only if all are free |
| VersionRoutes.ClaimAll | server/outception/kit/versioning.py:382-412 | Fails if and only if a bound is unsupported or two ranges cover one supported version; otherwise gives exactly the covered versions |
| VersionRoutes.FinalizeGroup | server/outception/kit/versioning.py:365-414 | Raises if and only if the group is defective; then, or without a ranged route, nothing changes; otherwise fallbacks stand back exactly where a range covers |
| VersionRoutes.ResolvedHasOneHandler | server/outception/kit/versioning.py:143-146 | In a resolved group a ranged route answers from its first bound to its last, both included, and a fallback exactly at the supported versions outside every range; so at most one answers for each supported version, and exactly one with a fallback |
| VersionRoutes.Finalize | server/outception/kit/versioning.py:351-414 | Raises if and only if some group is defective; otherwise every group with a ranged route has one handler per version, each fallback standing in one group |
| SchemaPrune.ReachableNames | server/outception/kit/versioning.py:229-242 | The worklist ends and holds exactly the components that a chain of references from the rest of the document reaches |
| SchemaPrune.Prune | server/outception/kit/versioning.py:220-246 | Removed are exactly the omitted, unreachable components; no reference held by the roots or by a reachable component is made dangling |
| SchemaPrune.PruningKeepsReach | server/outception/kit/versioning.py:244-246 | Whatever unreachable components are removed, the same components stay reachable |
| BoundedInflate.Inflate | server/outception/news/fetch.py:260-269 | Ends with at most room + 1 bytes, never passes a limit below 1, and a result that fits room is the whole inflation of the chunk |
| BoundedInflate.ReadInflated | server/outception/news/fetch.py:237-245 | The body is the inflation of the concatenated chunks if and only if that is sound and fits; the two errors say which failed; one byte past the cap is the most ever held |
| BoundedInflate.ReadPlain | server/outception/news/fetch.py:237-245 | The concatenated chunks if they fit, an error otherwise |
| BoundedInflate.Get | server/outception/news/fetch.py:226-251 | Whatever the chunk boundaries, exactly the decoded body when it is sound and fits, and an error otherwise; refused encodings and statuses exactly as listed |
| ClientBudget.ClientBudget.Spend | server/outception/news/client_budget.py:43-65 | Grants if and only if the window has had fewer than limit charges; the first charge opens it; an unknown client is let through; other keys stay; on its key it is a charge of the traces below |
| SpendWindows.TraceKeeps | server/outception/news/client_budget.py:62-65 | In every trace, with the INCR and EXPIRE of overlapping charges interleaved, windows open a window's length apart and grants per window are what the counter says, up to the limit |
| SpendWindows.SpanBound | server/outception/news/client_budget.py:62-65 | Each window grants at most limit, and every span of a window's length at most 2 * limit - 1 |
| SpendWindows.SpanBoundIsReached | server/outception/news/client_budget.py:62-65 | For every limit and window some trace reaches the span bound |
| Lockout.Lockout.NoteFailure | server/outception/auth/lockout.py:22-25 | One failure more for this session and no other; the first sets the window |
| Lockout.Lockout.Verify | server/outception/auth/endpoints.py:260-270 | Alone: accepted if and only if right and not locked; a locked session changes nothing, a right code clears, a wrong one counts; on its session it is an uninterrupted run of the traces below |
| Lockout.CounterBound | server/outception/auth/lockout.py:17-29 | With at most n verifiers between check and count, the counter never passes 5 + n - 1 in any interleaving |
| Lockout.CounterBoundIsReached | server/outception/auth/endpoints.py:260-270 | For every n some run with at most n verifiers there counts 5 + n - 1 failures |
| Lockout.FiveAtMostExactly | server/outception/auth/lockout.py:17-29 | The counter stops at five in every run with at most n verifiers there if and only if n is one |
| HealthEpisodes.HealthService.ReadCode | server/outception/health/service.py:162-208 | One code's report and what it leaves in the two keys |
| HealthEpisodes.HealthService.WithClearing | server/outception/health/service.py:155-209 | The reasons in the order of the codes, each as if it were read alone; nothing is written while Redis is down |
| HealthEpisodes.HistoryKept | server/outception/health/service.py:166-198 | After any history of reads of one code the since key exists exactly while the code is due and holds the start of the episode |
| HealthEpisodes.EachCodeAlone | server/outception/health/service.py:162-208 | In the store shared by all codes, after any history of whole reads, each code's keys are as in a store of its own |
| HealthEpisodes.EpisodeStartsObserved | server/outception/health/service.py:166-176 | An episode starts with an observation, right after a read that was not due, and all its reads are due |
| HealthEpisodes.ReportedExactlyWhenDue | server/outception/health/service.py:166-208 | One code is reported if and only if it is observed now or, when not critical, at a read less than 180 s earlier; since is the first observation after the last read that found it cleared |
| HealthEpisodes.ServiceReportsExactlyWhenDue | server/outception/health/service.py:155-209 | The same of the whole service: after any history of whole reads the reasons of the next for a code are exactly the one that is due, with that since and the observed detail or "clearing" |
| Checksums.LuhnOk | server/outception/net/scrub.py:66-75 | The loop accepts if and only if the weighed sum from the right is a multiple of ten |
| Checksums.LuhnComplete | server/evals/scrub/generate.py:6-12 | The completed number is accepted, and with any other check digit it is not |
| Checksums.LuhnCatchesOneDigit | server/outception/net/scrub.py:66-75 | Every change of one digit of an accepted number is rejected |
| Checksums.LuhnCatchesAdjacentSwap | server/outception/net/scrub.py:66-75 | An adjacent swap is accepted if and only if the digits are equal or are 0 and 9 |
| Checksums.Ppsn | server/evals/scrub/generate.py:15-18 | The generated letter is accepted, and no other is |
| Checksums.PpsnCatchesOneDigit | server/outception/net/scrub.py:78-87 | Every change of one digit is rejected, with or without a second letter |
| Checksums.PpsnCatchesSwap | server/outception/net/scrub.py:78-87 | Every swap of two unequal digits, at any distance, is rejected |
| Checksums.PpsnSecondLetter | server/outception/net/scrub.py:85-86 | A changed second letter is accepted if and only if both are no letter or W |
| Checksums.PpsnInFigures | server/outception/net/scrub.py:81-87 | The letter accepted is the one at the sum of the digits times 8 down to 2, plus nine times the place of a second letter, modulo 23 |
| Deck.Finalize | server/outception/cards/deck.py:120-139 | The loop, the cap and the pin compute the deck that the lemmas below are about |
| Deck.PickedFacts | server/outception/cards/deck.py:123-134 | The picked ids are distinct and are exactly the accepted ones among the cards |
| Deck.PickedOrder | server/outception/cards/deck.py:123-134 | They stand in the order of their first occurrence |
| Deck.DeckFacts | server/outception/cards/deck.py:120-139 | Distinct ids, at most 120 of content, the weather strip last if and only if it was present |
| Deck.NothingSkipped | server/outception/cards/deck.py:136 | An accepted card is left out only when 120 others first occur before it |
| Deck.FinalizeTwice | server/outception/cards/deck.py:120-139 | Finalising a deck again changes nothing |
| Deck.RepeatedTailIgnored | server/outception/cards/deck.py:125-128 | Cards that already occurred change nothing at the end |
| Deck.ComposeDefaultDeck | server/outception/cards/deck.py:98-117 | The loops over the base list, swaps and injections give the deck of the leading cards followed by the base cards |
| Deck.LeaderComesFirst | server/outception/cards/deck.py:102-106 | An accepted country card comes first when nothing is shared, and an accepted shared card when something is |
| Deck.CountryCardComesFirst | server/outception/cards/deck.py:103-106 | With nothing shared, the country card comes first when it is known, not disabled and no fallback |
| Deck.SeasonGoesRound | server/outception/cards/deck.py:64-76 | An entry applies if and only if it is enabled, its season, taken round the year, holds the month, and the country is one of its countries |
| Deck.ResolveCountry | server/outception/cards/deck.py:79-95 | A country reference stands for the country's card, its education card or its table, and for what follows the bar when that table is empty |
| TitleIndex.BlobAnswersForTitles | server/outception/news/cache.py:185-189 | A non-empty query of one line is in the blob, lowercased again as the search does, if and only if it is in some item's lowercased title |
| TitleIndex.BreakInQueryMisleads | server/outception/news/cache.py:38-44 | For every lowercase query with a line break there are titles for which the gate says yes and the scan no |
| TitleIndex.GateAgreesExactly | server/outception/news/cache.py:185-189 | For a non-empty lowercase query, gate and scan agree on every list of titles if and only if the query is of one line |

## Left out

- HTTP, DNS, mail, logos, JSON, S3, the web framework and Postgres itself: input and output, given as parameters or not modelled. Whether a link passes its check is a parameter.
- `parse_retry_after`, `remaining_share`: date parsing and one division; the seconds and the share are parameters.
- `scrub_report` and its patterns, favicon domains, the address arithmetic of `client_network`: the model starts from the texts, digits and networks they yield.
- ProviderRuns.UpstreamOnlyWhenCleared: a waiting call resumes in one step; its polling and its bounded waiting are in `SingleFlight`. A charge that Redis has counted but whose call died before asking counts as a charge.
- ProviderRuns.BudgetOvershootBound: says nothing of a day that some call charges after the day that follows it is over, since its counter may have expired by then; the clock of `time.time()` is the clock of Redis, and the day number is the UTC day.
- Toolkit.Toolkit.SetCooldown: a cooldown of zero seconds is over at once, where Redis would refuse it; no provider declares one.
- Transactions of the launches service that overlap on one row, and the order in which Postgres and Redis commit: each step is one transaction.
- Launches.OrderedIsSorted: SQL leaves equal rows in any order; the model settles them by id, and `CardOrderForced` shows there are none in forward runs.
- LaunchService.LaunchService.Update: the founder's note, timestamps and notifications are not fields of the model.
- The operator commands `feature` and `end` of `server/scripts/launches.py`: they set fields from outside the service rules.
- Deleting a user or a product also deletes rows that refer to it; the counters of a deleted product are not removed from `Reach`.
- BackupCodes.BackupCodesFactor.Verify: one call alone; overlapping calls are in `BackupRaces`, where each write is a single instant. Enrolment is an initial state.
- A crash between INCR and EXPIRE is part of `ProviderRuns` and `Lockout`; `SpendWindows` lets the EXPIRE come arbitrarily late, or never.
- SpendWindows.SpanBound: one client network and one window length above zero at a time; keys do not influence each other.
- ApiVersions.ParsePrints: which characters are decimal digits is a parameter, with the ASCII digits among them.
- VersionRoutes.Finalize: the texts of the errors, and the check that a range has a bound and is not empty; the theorems hold for every range. When it raises, groups finalised before keep their overrides.
- BoundedInflate.Get: which `zlib` errors there are, trailing data after a stream and the declared charset; the encoding arrives stripped and in lower case; the decompressor is the contract on `Inflater.Decompress`.
- HealthEpisodes.HealthService.WithClearing: times are whole milliseconds, where the service stores a printed floating-point number; subsystem and remedy texts are constants of a code.
- Deck.Finalize: `always_warm_ids`, which is a union of the same tables.
- TitleIndex.BlobAnswersForTitles: lowercasing is a parameter that works line by line and changes nothing the second time, as `str.lower` does, the final sigma included; Unicode tables are not modelled.
- Search, the catalog, sessions, encryption, signing, migrations and the clients: beside the point here, or mostly contracts of libraries.

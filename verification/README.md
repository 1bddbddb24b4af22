# Verified model of the load-test robot

This project models the decision logic of the `robot/` client of the MMORPG
repository in Dafny and proves properties of it over all inputs, all runs and
all behaviours of the servers it talks to. Servers, clocks, schedulers and the
receiving goroutine appear as function-valued scripts, so every theorem
quantifies over what they may do.

`dafny verify dfyconfig.toml` checks all files. The modules, by topic:

- **Login queue.** `QueueWait` (waits in wrapping int64 nanoseconds),
  `QueueContract` (what a run may look like, and the safety and work bounds that
  follow), `QueueClient` (the state machine, proved to keep that contract, and the
  proof that the contract and the world determine the run).
- **Bags, equipment and forging.** `Bags`, `BagEquality`, `EquipLayout`,
  `ForgeScale`, `ForgeChecks` (each checker decides exactly a relation between
  two snapshots), `ForgeRuns` (what whole runs of accepted steps conserve),
  `Panels`.
- **Mail.** `MailPaging`, `MailUnread`, `MailHistory`, `MailVerdict` (the unread
  check judged against a mailbox that changes while it is being listed).
- **Request ordering.** `OrderingRounds`.
- **Channel log and throttles.** `SwitchLog`, `RateLimit`, `ClientSpacing`.
- **Login and retry.** `LoginFlow`, `RobotRetry`.
- **Shared.** `MachineInts` (64-bit wrap-around), `Keyed` (lists searched by key).

Where a method runs against an environment, its contract fixes the outcome: the
lemmas named `...IsDetermined` (of the queue client, the login, the channel wait,
the mail listing and the retry loop) show that the contract together with the
environment's script admits one run only.

## What the proofs found

Where the code does not do what its comments say, the code is modelled as it is,
a lemma shows an input, and another gives the exact condition.

- `heldTokenWait` promises a wait in [base, base + 20%]. The product `base * 20`
  can wrap; a retry hint of 6*10^11 ms then gives a wait below base
  (`QueueWait.JitterRangeFails`). `QueueWait.JitterRange` gives the exact
  condition. The two-second floor holds for every hint.
- `queuePollInterval` multiplies the hint by 10^6 in an int64. The hint
  76480200929599801 gives a wait of 64 ns (`QueueWait.PollIntervalFails`). The wait
  is below 1 ms exactly for hints h with 0 < 15625 * h mod 2^58 < 15625
  (`QueueWait.PollIntervalBound`), and the request bound uses 64 ns for those.
- Inlay followed by remove restores the item except for the socket's gem icon,
  which no check compares (`ForgeRuns.IconNotRestored`); the item comes back
  exactly when that icon does (`ForgeRuns.InlayThenRemove`).
- The forge checks look at the first socket with the addressed number and hide all
  of them when they compare the rest. A step conserves gems exactly when the others
  with that number, its twins, hold the same gems before and after
  (`ForgeRuns.StepConserves`, and over runs `ForgeRuns.RunConservesHoldings`); an
  accepted inlay with twins that differ creates a gem
  (`ForgeRuns.DuplicateSocketCreatesGem`). Distinct numbers leave no twins.
- For two snapshots with the same items and slots, the verdict of `featureBagsEqual`
  is the same under every sort exactly when they were sent in the same order or
  equal keys mean equal elements (`BagEquality.VerdictNeedsNoSort`);
  `BagEquality.SortDecides` shows two snapshots on which the sort decides.
- `runRobot` sets a short backoff after a token expiry, but sleeps it exactly when
  an ordinary failure came before (`RobotRetry.ExpiryWait`); a script of twenty
  expiries is retried without any wait (`RobotRetry.BoundIsReached`).
- The comment above the unread check says that a read which was not deducted is
  noticed with several pages too. That holds exactly when no expiry went unseen
  between pages and nothing was counted as arrived that had not arrived
  (`MailVerdict.LongListingNotices`); `MailVerdict.UnrecordedReadUnnoticed` is a
  mailbox of 51 mails for which it passes.
- A panel shift and its opposite cancel out even when row ids repeat
  (`Panels.ShiftAndBack`).

## Model

| member | source | states |
|---|---|---|
| `QueueWait.Floor` | robot/http_assign_gate.go:144-166 | the backoff floor stays between 2 s and 30 s for every number of failures |
| `QueueWait.FloorDoubles` | robot/http_assign_gate.go:157-166 | 2 s up to the first failure, then twice the last floor, up to 30 s |
| `QueueWait.Base` | robot/http_assign_gate.go:161-169 | the base never drops below the floor, even if the hint wraps |
| `QueueWait.HeldTokenWait` | robot/http_assign_gate.go:161-171 | the doubling loop computes the closed form max(hint, min(2 s * 2^(n-1), 30 s)) plus clamped jitter; the wait is at least 2 s, and when base * 20 fits it lies in [base, base + 20%] and a draw in range is added as it is |
| `QueueWait.JitteredStaysInRange` | robot/http_assign_gate.go:137-171 | for every jitter source the sum does not wrap and the wait is at least 2 s, although the jitter bound may be negative |
| `QueueWait.JitterRange` | robot/http_assign_gate.go:144-171 | if-and-only-if condition for [base, base + 20%], and for its upper end being reachable |
| `QueueWait.JitterRangeFails` | robot/http_assign_gate.go:161-171 | a hint for which every jitter gives less than base |
| `QueueWait.PollInterval` | robot/http_assign_gate.go:173-181 | the token-free wait is positive for every hint |
| `QueueWait.FittingHints` | robot/http_assign_gate.go:161-181 | hints that fit are taken at their word, with and without a token; 2 s stand in for a missing one |
| `QueueWait.PollIntervalBound` | robot/http_assign_gate.go:173-181 | every wait is a multiple of 64 ns; below 1 ms if and only if 0 < 15625 * hint mod 2^58 < 15625, which needs a product that wraps |
| `QueueWait.PollIntervalFails` | robot/http_assign_gate.go:173-181 | a hint that gives a wait of 64 ns |
| `QueueContract.ConformsPrefix` | robot/http_assign_gate.go:183-208 | every event of a conforming run was allowed and in time when it happened |
| `QueueContract.HeldIsLatestGrant` | robot/http_assign_gate.go:261-313 | the held token is the latest one granted since the last 410, or the initial one; it is empty only after a 410 or from the start |
| `QueueContract.TokenChanges` | robot/http_assign_gate.go:261-304 | only a code-100 "login" reply with a token changes the token in hand, and only code 410 drops it |
| `QueueContract.FailuresIsTrailingRun` | robot/http_assign_gate.go:220-231 | the failure counter is the length of the trailing run of failed queue-status calls |
| `QueueContract.RequestsAreGuarded` | robot/http_assign_gate.go:223-319 | every request carries the held token, queue-status a non-empty one; every request but the first directly follows a wait or check that passed before the deadline |
| `QueueContract.BurstBound` | robot/http_assign_gate.go:209-346 | at most three requests between two waits, in every run |
| `QueueContract.WaitsFitBudget` | robot/http_assign_gate.go:122-181 | completed waits add up to no more than the time elapsed |
| `QueueContract.RequestsPerWait` | robot/http_assign_gate.go:209-346 | requests are paid for by completed waits: three with a token, one without, two in advance |
| `QueueContract.CompletedWaitsBeforeDeadline` | robot/http_assign_gate.go:122-133 | a run ends its waits before the deadline |
| `QueueContract.FreeWaitsTake64ns` | robot/http_assign_gate.go:173-181 | every token-free wait of a conforming run takes at least 64 ns |
| `QueueContract.FreeWaitsTakeMillisecond` | robot/http_assign_gate.go:173-181 | and at least 1 ms if the run has no hint of that kind |
| `QueueContract.RequestsFitBudget` | robot/http_assign_gate.go:183-346 | whatever the gateway answers, the number of requests is bounded by a function of the budget |
| `QueueClient.Environment.Sleep` | robot/http_assign_gate.go:122-133 | sleepCtx passes exactly if the timer fires before the deadline, and when it returns |
| `QueueClient.CheckedCall` | robot/http_assign_gate.go:304-345 | a call without a wait is preceded by a budget check and keeps the contract |
| `QueueClient.PollQueueStatus` | robot/http_assign_gate.go:321-346 | one queue-status call and at most one re-entry with the same token; the failure counter is updated to match the history |
| `QueueClient.HoldAndPoll` | robot/http_assign_gate.go:265-293 | waits the token-holding interval, then polls; keeps the contract |
| `QueueClient.WaitAndCall` | robot/http_assign_gate.go:271-280 | without a token: waits, then calls assign-gate; keeps the contract |
| `QueueClient.AssignGateWithQueue` | robot/http_assign_gate.go:183-319 | terminates for every gateway and clock; the run keeps the contract and every event is what the world makes of it; the outcome is what the last event says; out of budget means the deadline has come; the request is left holding the right token |
| `QueueClient.NextIsDetermined` | robot/http_assign_gate.go:237-318 | at every point the contract and the world allow one next event |
| `QueueClient.StopsOrGoesOn` | robot/http_assign_gate.go:237-318 | where a run may stop no further event is allowed |
| `QueueClient.RunIsDetermined` | robot/http_assign_gate.go:183-319 | a world has one finished run |
| `QueueClient.VerdictMeans` | robot/http_assign_gate.go:238-317 | only code 0 admits; 429 and 410 end a run only without a token; a failing queue-status never does |
| `QueueClient.HeldWaitMeans` | robot/http_assign_gate.go:265-290 | in every run a wait with a token is the base plus what the jitter source draws |
| `QueueClient.OutOfBudgetIsReal` | robot/http_assign_gate.go:267-307 | a run that ends out of budget had reached the deadline, or its last wait could not end before it |
| `ForgeScale.SplitProduct` | robot/equip_forge_smoke_scenario.go:799-819 | splitting the base into ten-thousands and a rest loses nothing to rounding |
| `ForgeScale.GuardIsExact` | robot/equip_forge_smoke_scenario.go:802-819 | the overflow guard holds exactly when the product fits |
| `ForgeScale.Scale` | robot/equip_forge_smoke_scenario.go:799-819 | equals min(2^64-1, base + floor(base * permyriad / 10000)) for every input, no intermediate value wraps |
| `ForgeScale.ScaleLaws` | robot/equip_forge_smoke_scenario.go:799-819 | identity at 0, never shrinks, monotone in both arguments |
| `ForgeScale.ScaleRoundsDown` | robot/equip_forge_smoke_scenario.go:799-819 | a permyriad is a ten-thousandth, and fractions are cut off |
| `ForgeScale.ScaleInjective` | robot/equip_forge_smoke_scenario.go:799-819 | different table values never scale to the same unsaturated value |
| `ForgeScale.FailureCosts` | robot/equip_forge_smoke_scenario.go:821-827 | a failure costs the loss or all there is, and losses add up |
| `Bags.FeatureBagInventory` | robot/features_smoke_scenario.go:555-583 | accepts exactly the snapshots in which slots and items match one to one, and totals them by stack kind |
| `Bags.StackTotalAdds` | robot/features_smoke_scenario.go:561-569 | a stack counts all its units under its config, kind and limit; lists add up |
| `Bags.AcceptedCells` | robot/features_smoke_scenario.go:563-578 | an accepted snapshot covers one cell per item and totals exactly the stack kinds that occur |
| `Bags.TotalItems` | robot/features_smoke_scenario.go:561-569 | its first loop: rejects exactly zero ids, empty stacks and repeated ids |
| `Bags.CollectReferences` | robot/features_smoke_scenario.go:570-578 | its second loop: rejects exactly the slots that lie outside, overlap, span cells or name no item of their own |
| `Bags.PlacementIsBijection` | robot/equip_smoke_scenario.go:867-875 | in an accepted snapshot item-to-slot and slot-to-item lookups are inverse |
| `Bags.FreeSlotsExact` | robot/equip_smoke_scenario.go:877-884 | the free-slot count is the number of empty cells, and its clamp is never reached |
| `Bags.OccupiedIffListed` | robot/equip_smoke_scenario.go:867-875 | a cell is occupied exactly when a slot entry names it |
| `BagEquality.FeatureBagsEqual` | robot/features_smoke_scenario.go:585-595 | for accepted snapshots, true exactly when item lookups, slot lookups and the rest agree |
| `BagEquality.EqualIffSameContents` | robot/features_smoke_scenario.go:585-595 | the same for all snapshots without repeated keys and for any sort, also unstable ones |
| `BagEquality.EqualKeepsContents` | robot/features_smoke_scenario.go:585-595 | for all snapshots: equal ones hold the same items and slots in some order |
| `BagEquality.SorterExists` | robot/features_smoke_scenario.go:590-593 | the sorting assumption of the lemmas below can be met |
| `BagEquality.EqualityLaws` | robot/features_smoke_scenario.go:557-595 | on accepted snapshots the order of items and slots makes no difference to any comparison; and an equivalence relation |
| `BagEquality.DifferentContentsDiffer` | robot/features_smoke_scenario.go:585-595 | snapshots that differ in contents differ under every sort |
| `BagEquality.SomeSortAgrees` | robot/features_smoke_scenario.go:585-595 | snapshots with the same contents agree under some sort |
| `BagEquality.VerdictNeedsNoSort` | robot/features_smoke_scenario.go:585-595 | they agree under every sort if and only if items and slots come in the same order or equal keys mean equal elements |
| `BagEquality.SortDecides` | robot/features_smoke_scenario.go:585-595 | two snapshots, rejected by featureBagInventory, that one sort finds equal and another does not |
| `EquipLayout.CheckEquipBagSnapshot` | robot/equip_smoke_scenario.go:896-909 | accepts exactly well-placed snapshots of the wanted bag type |
| `EquipLayout.CheckEquipSlotDefs` | robot/equip_smoke_scenario.go:1037-1064 | accepts exactly strictly ascending definitions that cover the wanted slots |
| `EquipLayout.CheckEquipLayout` | robot/equip_smoke_scenario.go:1080-1131 | the loops decide exactly the stated layout conditions |
| `EquipLayout.NamedSlotsInject` | robot/equip_smoke_scenario.go:1086-1131 | no two named slots expect the same instance |
| `EquipLayout.ExpectedIdsAreAll` | robot/equip_smoke_scenario.go:1086-1131 | by counting, the ids in the equipment bag are exactly the expected ones |
| `EquipLayout.EquipmentIsExactlyExpected` | robot/equip_smoke_scenario.go:1086-1131 | the equipment bag holds exactly the expected instances, one per named slot |
| `EquipLayout.EveryNamedItemInOneBag` | robot/equip_smoke_scenario.go:1080-1131 | every named instance is in exactly one bag, which the code does not check for inventory items |
| `EquipLayout.LayoutCounts` | robot/equip_smoke_scenario.go:1086-1131 | nothing was created or lost, and both snapshots are of the right bags |
| `EquipLayout.NamedSlotsDefined` | robot/equip_smoke_scenario.go:1037-1064 | every named slot has exactly one definition, with a kind and a name |
| `ForgeChecks.ConfigCounts` | robot/equip_forge_smoke_scenario.go:764-771 | the map answers the total count of every config |
| `ForgeChecks.ConfigCountAdds` | robot/equip_forge_smoke_scenario.go:764-771 | a stack counts all its units; lists add up |
| `ForgeChecks.GoldIsFirst` | robot/equip_forge_smoke_scenario.go:754-762 | gold is the first currency, zero if there is none |
| `ForgeChecks.CountsDiff` | robot/equip_forge_smoke_scenario.go:777-797 | reports exactly the configs whose tallies differ, a missing key being zero |
| `ForgeChecks.CheckLedger` | robot/equip_forge_smoke_scenario.go:1117-1157 | accepts exactly if place, gold, everything else worn and the inventory tally are as stated |
| `ForgeChecks.CheckEnhance` | robot/equip_forge_smoke_scenario.go:1159-1246 | decides exactly the enhance relation: outcome, price, material, level and every base line |
| `ForgeChecks.SpendMaterial` | robot/equip_forge_smoke_scenario.go:1192-1199 | the expected tally, or refusal exactly when the material does not suffice |
| `ForgeChecks.CheckInlay` | robot/equip_forge_smoke_scenario.go:1248-1305 | decides exactly the inlay relation |
| `ForgeChecks.CheckRemove` | robot/equip_forge_smoke_scenario.go:1307-1345 | decides exactly the remove relation |
| `ForgeChecks.CheckSockets` | robot/equip_forge_smoke_scenario.go:994-1023 | accepts exactly socket lists laid out by the rules |
| `ForgeChecks.CheckBaseLines` | robot/equip_forge_smoke_scenario.go:1025-1064 | accepts exactly lines that show scaled table values |
| `ForgeRuns.InlayBalances` | robot/equip_forge_smoke_scenario.go:1248-1305 | for every config: an accepted inlay keeps inventory plus set gems if and only if the addressed sockets gained exactly the gem |
| `ForgeRuns.RemoveBalances` | robot/equip_forge_smoke_scenario.go:1307-1345 | for every config: an accepted remove does if and only if they lost exactly the gem |
| `ForgeRuns.StepConserves` | robot/equip_forge_smoke_scenario.go:1123-1345 | for every config but 0: one accepted step keeps inventory plus set gems, less material spent, if and only if the twins of the addressed socket hold the same gems |
| `ForgeRuns.GemsSplit` | robot/equip_forge_smoke_scenario.go:926-940 | hiding a socket number hides exactly the gems of all sockets with that number |
| `ForgeRuns.RunConservesGold` | robot/equip_forge_smoke_scenario.go:1123-1345 | at every point of every run, gold lost is the sum of the enhance prices, and both bags report the same amount |
| `ForgeRuns.RunConservesHoldings` | robot/equip_forge_smoke_scenario.go:1123-1345 | for every config but 0: holdings change only by material consumed at every point of a run if and only if the twins agree in every step |
| `ForgeRuns.DistinctRunConserves` | robot/equip_forge_smoke_scenario.go:997-1023 | hence every run on items with distinct socket numbers conserves every config but 0 |
| `ForgeRuns.RunKeepsPlace` | robot/equip_forge_smoke_scenario.go:1123-1157 | the item never leaves its bag or slot and is in no other bag, and everything else worn stays |
| `ForgeRuns.StepTouchesOnly` | robot/equip_forge_smoke_scenario.go:916-940 | an accepted enhance touches level, bonus, preview and base lines and nothing else; inlay and remove touch the sockets with one number |
| `ForgeRuns.EnhanceMeans` | robot/equip_forge_smoke_scenario.go:1159-1246 | a success shows the previewed bonus and values; a certain success does not fail |
| `ForgeRuns.RunLevel` | robot/equip_forge_smoke_scenario.go:1168-1246 | at every point of every run the level is the first one plus the successes less what the failures cost |
| `ForgeRuns.InlayShowsDeclared` | robot/equip_forge_smoke_scenario.go:1254-1305 | the filled socket keeps type and name and shows what the stack with the least item id declares |
| `ForgeRuns.RemoveEmpties` | robot/equip_forge_smoke_scenario.go:1312-1345 | the emptied socket keeps type and name and shows no gem |
| `ForgeRuns.RunKeepsTable` | robot/equip_forge_smoke_scenario.go:1168-1345 | table values never change, and properly scaled lines stay so after every kind of step |
| `ForgeRuns.DisplayCheckStartsScaled` | robot/equip_forge_smoke_scenario.go:1025-1064 | a target that passed the display check starts out scaled |
| `ForgeRuns.InlayThenRemove` | robot/equip_forge_smoke_scenario.go:1248-1345 | restores tally and gold; restores the item if and only if the socket's gem icon is restored |
| `ForgeRuns.InlayThenRemoveRestores` | robot/equip_forge_smoke_scenario.go:1248-1345 | if empty sockets show no icon, inlay then remove restores everything |
| `ForgeRuns.IconNotRestored` | robot/equip_forge_smoke_scenario.go:1307-1345 | an accepted inlay and remove on snapshots that pass the bag check and leave a stale icon |
| `ForgeRuns.DuplicateSocketCreatesGem` | robot/equip_forge_smoke_scenario.go:1248-1305 | an accepted inlay on snapshots that pass the bag check and creates a gem by disagreeing twins |
| `Panels.PanelCompare` | robot/equip_smoke_scenario.go:1171-1207 | lists nothing exactly if every statistic, dimension and combat row holds and the row counts agree |
| `Panels.CombatValues` | robot/equip_smoke_scenario.go:1154-1160 | for repeated ids the last row wins |
| `Panels.NoDiffTransitive` | robot/equip_smoke_scenario.go:1209-1212 | an empty difference is transitive, even with repeated ids |
| `Panels.NoDiffExact` | robot/equip_smoke_scenario.go:1209-1212 | with distinct ids it means the panels answer every lookup alike |
| `Panels.NoDropMeans` | robot/equip_smoke_scenario.go:1214-1217 | equipPanelDrops finds nothing only if no statistic and no combat row is smaller in the second panel |
| `Panels.CheckPanelShift` | robot/equip_forge_smoke_scenario.go:1383-1403 | accepts exactly panels whose attacks moved by the delta without going below zero |
| `Panels.ShiftMeans` | robot/equip_forge_smoke_scenario.go:1383-1403 | an accepted shift moves both attacks by the delta and leaves the other statistics alone |
| `Panels.ShiftKeepsNoDiff` | robot/equip_forge_smoke_scenario.go:1383-1403 | shifting both sides keeps an empty difference |
| `Panels.ShiftsCompose` | robot/equip_forge_smoke_scenario.go:1383-1403 | two accepted shifts are one by the wrapped sum |
| `Panels.ShiftAndBack` | robot/equip_forge_smoke_scenario.go:1383-1403 | a shift and its opposite leave no difference |
| `MailPaging.ListAll` | robot/mail_smoke_scenario.go:679-716 | against any server: at most ten calls, strictly decreasing cursors, stops exactly where it must, returns what the pages held and the counts and clock of the first |
| `MailPaging.ListingIsDetermined` | robot/mail_smoke_scenario.go:690-716 | a server determines the calls and the result |
| `MailPaging.FixedPages` | go/mail/internal/data/inbox.go:56-117 | on a fixed mailbox call n returns page n |
| `MailPaging.ListsFixedMailbox` | robot/mail_smoke_scenario.go:679-716 | returns the mailbox in order cut at ten pages; all of it exactly when it fits; singlePage exactly when one page sufficed |
| `MailPaging.ClaimableAreCounted` | go/mail/internal/data/inbox.go:79-83 | the claimable count is the number of unexpired mails that can be claimed |
| `MailPaging.LastCallIsTenth` | robot/mail_smoke_scenario.go:690-716 | stops before the last page only when the ten pages are used up |
| `MailUnread.CheckUnreadAfterRead` | robot/mail_smoke_scenario.go:718-755 | an equation for two single pages, an upper bound otherwise, over exact counts of expired and arrived mail |
| `MailHistory.ViewMember` | go/mail/internal/data/inbox.go:56-117 | the view lists exactly the visible mail |
| `MailHistory.UnreadBalance` | robot/mail_smoke_scenario.go:718-728 | true balance: unread then, less the one read and the expired, plus arrivals |
| `MailHistory.ServerCountsUnread` | go/mail/internal/data/inbox.go:56-117 | the server's count is the number of visible unread mails |
| `MailVerdict.ListingDescends` | robot/mail_smoke_scenario.go:690-716 | a listing of a changing mailbox is descending across pages |
| `MailVerdict.ListedMailIsOld` | robot/mail_smoke_scenario.go:718-755 | whatever a listing shows was sent no later than its first page |
| `MailVerdict.ExpiredAreExpiring` | robot/mail_smoke_scenario.go:729-755 | what the check counts as expired did expire |
| `MailVerdict.ArrivalsAreListed` | robot/mail_smoke_scenario.go:729-755 | arrivals that fit on one page are all listed |
| `MailVerdict.ExpectationGap` | robot/mail_smoke_scenario.go:718-755 | the exact distance between the expectation and the true count for listings of any length: expiries not seen plus arrivals counted in excess |
| `MailVerdict.SinglePageVerdictIsExact` | robot/mail_smoke_scenario.go:718-755 | with single pages the check passes if and only if the server marked the mail as read |
| `MailVerdict.LongListingNeverAccuses` | robot/mail_smoke_scenario.go:718-755 | with longer listings and at most one page of arrivals a correct server always passes |
| `MailVerdict.LongListingVerdict` | robot/mail_smoke_scenario.go:718-755 | exact condition for passing, for any number of arrivals, whether or not the server recorded the read |
| `MailVerdict.LongListingNotices` | robot/mail_smoke_scenario.go:726-728 | a read not recorded is noticed if and only if no expiry went unseen and no arrival was counted in excess |
| `MailVerdict.UnrecordedReadUnnoticed` | robot/mail_smoke_scenario.go:726-728 | 51 mails for which it is not noticed |
| `OrderingRounds.GuildServer.Pipeline` | robot/ordering_smoke_groups.go:17-22 | replies and state of each execution of apply and cancel from a clean start |
| `OrderingRounds.GuildServer.CancelAndVerify` | robot/ordering_smoke_groups.go:303-322 | success means the application is gone; exact condition for it |
| `OrderingRounds.GuildServer.Round` | robot/ordering_smoke_groups.go:231-294 | goes on exactly if the replies fit an order and the clean-up works; then it ends clean and is recorded exactly as it looks |
| `OrderingRounds.TrustedGuildRound` | robot/ordering_smoke_groups.go:17-22 | a well-behaved server never fails a round, looks reordered exactly if out of order and busy exactly if in conflict |
| `OrderingRounds.JudgedIsExplained` | robot/ordering_smoke_groups.go:274-293 | without a conflict a round is judged exactly if it shows what one of the two orders shows |
| `OrderingRounds.RunGuildGroup` | robot/ordering_smoke_groups.go:197-301 | every round starts clean; the verdict is the first round that cannot be judged, or lists exactly the rounds that look reordered and busy |
| `OrderingRounds.GuildVerdictIsRight` | robot/ordering_smoke_groups.go:231-301 | a failed round is one with a server fault, and of the rounds with a well-behaved server exactly those out of order are listed |
| `OrderingRounds.TrustedGuildVerdict` | robot/ordering_smoke_groups.go:197-301 | with a well-behaved server it never fails and lists exactly the rounds out of order and in conflict |
| `OrderingRounds.FriendServer.Pipeline` | robot/ordering_smoke_groups.go:23-26 | both orders accept both requests and leave no edge or two |
| `OrderingRounds.FriendServer.RemoveAndVerify` | robot/ordering_smoke_groups.go:504-519 | success means neither side sees the other; exact condition for it |
| `OrderingRounds.FriendServer.Round` | robot/ordering_smoke_groups.go:423-465 | goes on exactly if both requests were accepted, both sides see the same and the clean-up works; then it ends between strangers |
| `OrderingRounds.FriendJudgedIsExplained` | robot/ordering_smoke_groups.go:444-464 | a round is judged exactly if it shows what one of the two orders shows |
| `OrderingRounds.FriendServer.Reset` | robot/ordering_smoke_groups.go:475-502 | success means strangers; exact condition: every waiting request rejected or gone, and the removal works |
| `OrderingRounds.RunFriendGroup` | robot/ordering_smoke_groups.go:402-473 | the same from any initial friendship and any waiting requests |
| `OrderingRounds.FriendVerdictIsRight` | robot/ordering_smoke_groups.go:422-473 | right round by round, as for the guild |
| `OrderingRounds.TrustedFriendVerdict` | robot/ordering_smoke_groups.go:402-473 | with a well-behaved server it never fails, never sees a one-sided edge and lists exactly the rounds out of order |
| `OrderingRounds.RunGroups` | robot/ordering_smoke_groups.go:162-191 | notes displaced groups and stops at the first other failure, before the next group is run |
| `OrderingRounds.SummaryMeans` | robot/ordering_smoke_groups.go:162-191 | which groups are named and which failure is returned, for every combination of verdicts |
| `SwitchLog.FirstIsStable` | robot/channel_smoke_scenario.go:628-670 | appending records never changes a decided outcome |
| `SwitchLog.PollingIsIrrelevant` | robot/channel_smoke_scenario.go:628-670 | the outcome does not depend on how polling slices the log |
| `SwitchLog.OutcomeNamesRecord` | robot/channel_smoke_scenario.go:639-661 | each outcome is that of exactly the records it names |
| `SwitchLog.Scan` | robot/channel_smoke_scenario.go:638-662 | finds the outcome of the first decisive record |
| `SwitchLog.ChannelLog.Append` | robot/channel_smoke_scenario.go:463-481 | the log only grows at its end |
| `SwitchLog.ChannelLog.WaitSwitchOutcome` | robot/channel_smoke_scenario.go:628-670 | polls until the first decisive record since the mark or the deadline, and no longer; says when the last poll was made and what had arrived by then |
| `SwitchLog.EndIsDetermined` | robot/channel_smoke_scenario.go:628-670 | the wait has one end |
| `SwitchLog.PollsEveryFifty` | robot/channel_smoke_scenario.go:663-667 | polls come every 50 ms plus what delays them |
| `SwitchLog.ChannelLog.RequestEnterScene` | robot/channel_smoke_scenario.go:602-626 | the mark precedes the request; only the scene's own reply carries a tip |
| `SwitchLog.ChannelLog.SwitchTo` | robot/channel_smoke_scenario.go:670-693 | reports arrival or refusal exactly if the request was accepted and the first decisive record since the mark says so; a refused, timed-out or failed call is an error |
| `RateLimit.MessageLimiter.CanSend` | cpp/libs/engine/core/message_limiter/message_limiter.cpp:11-49 | the eviction loop computes the step of the id's own quota, from the table or the default, and touches only that id |
| `RateLimit.BufferStaysLow` | cpp/libs/engine/core/message_limiter/message_limiter.cpp:28-42 | if any m steps exceed the window the buffer never holds more than m stamps |
| `RateLimit.NeverRejected` | robot/equip_smoke_scenario.go:68-75 | then a quota of at least m never rejects, for any number of requests |
| `RateLimit.BufferFills` | cpp/libs/engine/core/message_limiter/message_limiter.cpp:28-48 | limit + 1 requests within one window: the last is rejected |
| `RateLimit.SpacingIsSharp` | robot/chat_smoke_scenario.go:71-76 | a spacing is safe for a quota if and only if limit * gap covers the window plus one second |
| `RateLimit.ClientSpacings` | robot/channel_smoke_scenario.go:76-78 | 700 ms per id is never rejected; with 1100 ms the buffer holds at most two stamps |
| `ClientSpacing.DefaultCovers` | robot/equip_smoke_scenario.go:68-75 | the default of three requests in one second takes both spacings |
| `ClientSpacing.SameIdThrottle.Throttle` | robot/equip_smoke_scenario.go:619-627 | two sends of one id are at least 700 ms apart, with no wait beyond that |
| `ClientSpacing.RequestSpacer.Space` | robot/channel_smoke_scenario.go:499-527 | two sends are at least 1100 ms apart, with no wait beyond that |
| `ClientSpacing.DriveSameId` | robot/equip_smoke_scenario.go:619-627 | for call sequences of any length the limiter refuses no request of an id whose quota covers 700 ms, as the default does |
| `ClientSpacing.DriveSpaced` | robot/channel_smoke_scenario.go:499-527 | the same for global spacing of 1100 ms, with at most two stamps per id for a window of one second |
| `LoginFlow.Connection.Receive` | robot/login.go:152-174 | takes messages until the first for this request or an error; times out only when its budget is used up or the line is silent; all others are put aside in order |
| `LoginFlow.ExchangeIsDetermined` | robot/login.go:141-192 | what is on the wire determines the answer and how much is read |
| `LoginFlow.NothingSwallowed` | robot/login.go:163-167 | every message received is put aside unless it ended a handshake |
| `LoginFlow.EnvelopeWins` | robot/login.go:178-186 | a reply lets the login go on exactly if its envelope has no tip and its body no error |
| `LoginFlow.Connection.SendAndRecv` | robot/main.go:986-1036 | sends the request that is next and logs the answer heard; not sent exactly if the send failed |
| `LoginFlow.NothingAfterStuck` | robot/main.go:870-988 | nothing is sent on a connection after a handshake on it timed out |
| `LoginFlow.TimeoutIsReal` | robot/login.go:187-191 | a timeout means the budget was used up on other messages or the line was silent |
| `LoginFlow.EnterGameFollowsLogin` | robot/login.go:359-493 | EnterGame follows an error-free Login of the same path and names the first player listed |
| `LoginFlow.GoodReplyGoesOn` | robot/main.go:831-867 | in a finished login every error-free reply is followed up: no players by CreatePlayer, players by EnterGame with the first |
| `LoginFlow.FollowsIsSound` | robot/main.go:870-917 | such a login is sound, and every path uses its own credential |
| `LoginFlow.CredentialsMean` | robot/main.go:880-978 | the cached token, the gateway token, and an SA token or the password |
| `LoginFlow.ReconnectComesFirst` | robot/main.go:881-885 | a cached token is tried, and first, exactly if it has more than a minute left |
| `LoginFlow.RefusedTriedAll` | robot/main.go:880-917 | a refused login tried every path that can be tried |
| `LoginFlow.LoginIsDetermined` | robot/main.go:870-1036 | configuration and wire determine the login |
| `LoginFlow.ResultMeans` | robot/main.go:855-867 | entered exactly with the player an error-free EnterGame names, timed out exactly without a reply |
| `LoginFlow.LoginBringsToken` | robot/main.go:827-829 | a primary login brings the token of its reply, the gateway path holds the gateway token |
| `LoginFlow.ReconnectKeepsToken` | robot/login.go:431-435 | access-token logins keep the token |
| `LoginFlow.LogIsShort` | robot/main.go:879-917 | at most three paths of at most three requests |
| `LoginFlow.Enter` | robot/main.go:831-867 | creates a player only if none is listed, then enters with the first |
| `LoginFlow.LoginAndEnter` | robot/login.go:359-493 | runs one path to its end: refused, so that the next one comes, or finished |
| `LoginFlow.LoginViaGateway` | robot/main.go:919-978 | sends on the connection exactly if the gateway granted a token, and then holds that token |
| `LoginFlow.LoginAndEnterWithAuth` | robot/main.go:870-917 | for every wire: each request is the one that is next, nothing is left to send at the end, and the answers are those heard; result and token follow from the log |
| `RobotRetry.RunRobot` | robot/main.go:366-429 | terminates for every outcome sequence within 25 attempts, none of them after the stop signal; why it stopped; which backoffs it slept |
| `RobotRetry.EndIsDetermined` | robot/main.go:366-429 | a script has one end |
| `RobotRetry.AttemptsBounded` | robot/main.go:366-429 | at most 25 attempts |
| `RobotRetry.BoundIsReached` | robot/main.go:366-429 | twenty expiries and then failures: every run makes exactly 25 attempts, the first 21 without a wait |
| `RobotRetry.BackoffDoubles` | robot/main.go:378-404 | since the start or the last expiry the backoff is first * 2^waits, capped |
| `RobotRetry.SleptWaitsDouble` | robot/main.go:378-404 | the waits slept since the start or the last expiry are 3 s or 200 ms doubled each time, up to 30 s |
| `RobotRetry.WaitsCapped` | robot/main.go:378-404 | no wait exceeds 30 s |
| `RobotRetry.WaitsAfterFailure` | robot/main.go:392-404 | the first n attempts are made without a wait if and only if no ordinary failure came before the last of them |
| `RobotRetry.ExpiryWait` | robot/main.go:412-428 | the 200 ms backoff set by an expiry is slept if and only if an ordinary failure came before |

## Left out

- HTTP, TCP, gRPC, protobuf and JSON handling, logging, statistics and metrics: I/O.
- Error texts and the order of reported differences: only whether a check accepts is modelled.
- `nil` bags other than in `featureBagsEqual`, and `nil` elements of repeated fields.
- Item counts are added as unbounded numbers; a uint64 sum of uint32 counts wraps only beyond 2^32 items.
- The queue client's `firstQueueAt` and `maxRankSeen`, which are only reported; its failure counter is unbounded.
- Protobuf field presence beyond the optional messages the checks test.
- `checkEquipForgeRestored`, `checkEquipForgeTargetDisplay`, `checkEquipForgeGemItem`, `checkEquipGain`, `checkEquipPanelShape` and the affix checks: further field comparisons of the same kind.
- RateLimit.ClientSpacings: a request is taken to arrive at the instant it is sent.
- MailHistory.UnreadBalance: mail is neither deleted nor claimed between the two listings.
- OrderingRounds.RunGroups: the login group (O7) enters only through its verdict, and the three groups are run in line instead of from a list.
- OrderingRounds.RunGuildGroup: starts after login, clearing and guild creation; a new guild has no applications, so the clearing of older ones does not bear on the rounds.
- LoginFlow.Connection.Receive: what the reader takes after its handshake timed out is not modelled; no later request uses the connection.
- LoginFlow.LoginAndEnterWithAuth: the reader goroutine that is left behind after a timeout is not modelled; the proof is that the connection is not used again. Refresh tokens and expiry times are not kept.
- SwitchLog.ChannelLog.WaitSwitchOutcome: the receiving goroutine appends between polls; the mutex makes each poll atomic.
- Guild, friend, chat, battle, pet, attribute, merchant and mall scenarios: long fixed scripts of requests against servers that are not part of this model.
- `robot/gate.go`: has no callers.

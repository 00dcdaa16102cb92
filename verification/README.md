# A verified model of the panel's traffic ledger, address selection, routing rewrite and subscription tokens

This project models the parts of the VPN panel whose correctness spans several functions or a whole run, and proves what
their documentation promises. All proofs are for every input, every run and every order of events.

**The BS traffic ledger** (`BsLimit`, `BsLedger`, `BsEagerLedger`, `BsUsageReset`, `BsReview`, `BotDaily`, `BsConservation`,
`UsageAccounting`, `PeriodKeys`, `Sums`).
BS nodes have a monthly limit. Counters per (node, user) are reset lazily when the month changes, and the pool a user has
bought is carried over lazily on the next write. `BsLedger.Ledger` runs these operations on tables. `BsEagerLedger` states
the ledger they stand for, which settles every user at each month end, and proves that the lazy tables always report that
ledger, whatever ticks, purchases, settings, resets, reviews and idle months are interleaved. `BsReview` derives the table
of blocks from it. `BsConservation` follows the two tables a tick writes, the counters and the daily rows per bot, over whole months,
and `UsageAccounting` does the same for users and admins.

**Address selection and its journal** (`AddressPolicy`, `AddressContext`, `NodeRanking`, `NodeChoices`, `Medians`, `Ratios`,
`StaticAddresses`, `EpochChoices`, `AddressHistory`, `AddressJournal`). A host with
many addresses shows a user only some of them, chosen by weighted rendezvous hashing inside an epoch. `AddressPolicy.Top`
is an order-free reference definition of the choice; stability under changes is proved on it and, with the exact condition
under which a host has it, in `NodeChoices`. The
journal recomputes past days from data loaded for a whole range, and is proved to agree with what was rendered.

**Routing rewrites** (`XrayRouting`, `HostBalancer`, `CascadeConfig`, `ComposeEndpoints`,
`ComposeOutcome`, `ComposedConfig`, `ComposedAcceptance`). Rule lists
have a first-match meaning, and the generators are compilers whose output is compared with its input packet by packet.
Balancers select outbounds by the prefix of their tags, which is where the string lemmas live.

**Subscription tokens** (`Strings`, `Numerals`, `Utf8`, `Base64Url`, `SubscriptionToken`): printing and parsing, down to
the bytes.

**Three small ones**: the name allocator of the Clash and sing-box documents (`Remarks`), the removal of blocked clients by
email prefix (`ClientStrip`), and the sliding-window scheduler (`SyncBatch`).

## What the proofs found

Each of these is a statement of the code or its documentation that does not hold without a condition. The condition is
proved exact, and a lemma shows a concrete input that fails it.

- Resetting a user's data usage deletes counters that were not charged yet. With such resets among its steps, a run reports
  the eager ledger all along exactly when every reset finds nothing owed (`BsUsageReset.LazyRefinesEagerIff`,
  `BsUsageReset.DropCountersLosesACharge`).
- The choice among the nodes of a host is stable when a node leaves or joins or a weight rises, except that an unknown weight
  is the median of the known ones, which such a change can move. Losing a node is harmless under every hash exactly when the
  size cuts nothing among the nodes that stay, or these are all known or all unknown, or the unknown ones stay worth the same
  (`NodeChoices.LosingNodeIff`, `NodeChoices.MedianMovesChoice`). Raising the weight of a chosen node is harmless exactly when
  the size cuts nothing, or all nodes are known, or the unknown ones do not gain on it and, where more than one node is chosen,
  keep their ratio to the other known ones (`NodeChoices.RaisingIff`, `NodeChoices.RaiseMovesOthers`). The node itself keeps its
  place for all weights of at least one (`NodeChoices.RaisedNodeKeepsPlace`); below one it can lose it
  (`NodeChoices.RaiseLosesNode`, `NodeChoices.RaiseLosesNodeExample`).
- A manual rotation always changes the epoch of a user. What a host shows changes with it only under some hashes, and under none
  where its size cuts nothing or all its nodes to choose from share one address; a host with static addresses needs one that can
  be left out (`EpochChoices.RotationMovesIff`).
- The range query of the journal reaches far enough back exactly for rotation periods of at most 91 days
  (`AddressHistory.RangeAnswersPeriodIff`, `AddressHistory.LongPeriodFails`).
- The journal's shortcut "no more addresses than the size" does not subtract exhausted nodes, and the live choice does. The
  two agree exactly when the shortcut is not taken past an exhausted node (`AddressJournal.JournalAgreesIff`,
  `AddressJournal.ShortcutCanMiss`).
- The size of a host with static addresses bounds what a user is shown exactly when there are no more addresses than that, or
  every address is listed equally often and that number divides the size (`StaticAddresses.StaticHostBoundIff`,
  `StaticAddresses.StaticHostOverflows`).
- The managed rewrite changes the meaning of a packet exactly when the rule that decides it names a balancer beside a direct
  outbound (`HostBalancer.ManagedMeaningIff`, `HostBalancer.ConflictedRuleChangesMeaning`).
- The balancer of a cascade entry also reaches a foreign outbound exactly when a tag of the base document continues one of its
  own, or another route leaves by the same exit over an inbound whose tag does: inbound `X` and inbound `XY`
  (`CascadeConfig.EntryReachesIff`, `CascadeConfig.ForeignOutboundExample`).
- The cascade is meant only to add. A packet of the base rules can still gain an outbound by it, exactly when the balancer its
  rule names selects the tag of an added outbound by prefix (`CascadeConfig.BaseReachesIff`,
  `CascadeConfig.BaseBalancerExample`).
- The balancer of a host with several addresses reaches exactly those when no template outbound has a tag that starts with
  `proxy` (`ComposedConfig.BalancedReachesIff`, `ComposedConfig.TemplateProxyIsReached`).
- The tags of a sing-box document can collide with those of its template, which names are not checked against. For remarks
  none of which looks like a numbered other one, exactly when a template tag is a remark or one of its numbers
  (`Remarks.SingBoxTagsAreDistinctIff`, `Remarks.DirectCollides`).

The token parser by itself needs a username without a comma (`SubscriptionToken.TokenRoundTripIff`,
`SubscriptionToken.CommaNamesAnother`). Every username the panel's validator admits meets that condition
(`SubscriptionToken.AdmittedRoundTrip`). The order of the secret keys matters exactly for an older token that two of them open
with different answers (`SubscriptionToken.KeyOrderIff`).

## Assumptions

- The panel limit is a natural number; it and the set of BS nodes are fixed during a run, and the month clock never goes
  back. One database transaction is one step.
- Hashes, the logarithm of a unit hash, the digest, the check of older tokens and the character database are parameters. A score is an exact real: `max(weight, 1) / E` for a
  positive `E`. Coefficients and weights are exact reals.
- The clock is read once per step, so the day a tick is booked on lies in the month it is counted in. Queries return rows in the order they ask for.
- `select_injected_hosts` answers any list of hosts or an error.

## Model

| member | source | states |
|---|---|---|
| PeriodKeys.PeriodKeyOrder | app/xray/bs_limit.py:7-9 | "YYYY-MM" keys compare as strings exactly as the months they stand for, and different months have different keys |
| BsLedger.ScaledIsTruncated | app/jobs/record_usages.py:181 | a scaled value is the product with the coefficient truncated toward zero, for either sign |
| BsLedger.DeltaFallsShort | app/jobs/record_usages.py:178-181 | for traffic that is not negative, a user's delta is the coefficient times what the user passed, less than one unit per entry below it |
| BsLedger.AddParams | app/jobs/record_usages.py:178-181 | a tick's delta of a user is the sum of all its scaled values, each truncated toward zero, added to what was there |
| BsLedger.CountTick | app/jobs/record_usages.py:228-256 | exactly the counters of this node and these users change; a counter of an older month starts again from nothing |
| BsLedger.Ledger.UsageTotals | app/db/crud.py:2261-2283 | the sum over the user's counters of this month on BS nodes |
| BsLedger.Ledger.UsageTotalsStale | app/db/crud.py:2286-2303 | the sum over the user's counters from `since` on that are not of this month |
| BsLedger.Ledger.NormalizeExtraPeriod | app/db/crud.py:2306-2334 | answers the carried-over pool of the old tables, and writes it with the current period only if asked to and only if the period lags |
| BsLedger.Ledger.CarryOverStalePools | app/jobs/record_usages.py:209-226 | the whole table of users is the old one with every lagging user of the tick brought to this month, in whatever order |
| BsLedger.Ledger.RecordBsUserStats | app/jobs/record_usages.py:163-263 | one tick is one transition of both tables: pools are settled from the counters before any of these is overwritten, and the daily rows take in the same deltas; every counter of the node moves by the coefficient times what its user passed, rounded down per entry, and no other counter moves |
| BsLedger.Ledger.SetExtraAmount | app/db/crud.py:2374-2390 | the pool becomes the amount, not below zero; with no panel limit a non-zero amount is refused and nothing changes |
| BsLedger.Ledger.SetLimitTotal | app/db/crud.py:2393-2411 | the pool becomes the total above the panel limit; a total below it is refused, after the carry-over was written |
| BsLedger.Ledger.IncrementExtra | app/db/crud.py:2436-2446 | a purchase is added to the pool carried over to this month |
| BsLedger.Ledger.ModifyExtra | app/db/crud.py:2427-2451 | a reset comes before a purchase and counts only when the settings ask for it, and leaves an empty pool; a purchase is added to the pool brought to this month; a call with neither is an error and changes nothing |
| BsLedger.Ledger.ResetExtraPool | app/db/crud.py:2414-2424 | the pool becomes zero as of this month, without a carry-over |
| BsEagerLedger.InvStep | app/jobs/record_usages.py:204-256 | every step keeps: no counter of a user is newer than the month the user's pool was brought to |
| BsEagerLedger.InvRun | app/jobs/record_usages.py:204-256 | the same over every run |
| BsEagerLedger.StaleWindowIsOneMonth | app/db/crud.py:2286-2303 | after every run, all counters a lagging user is charged for are of one month, so the base limit is subtracted once per month |
| BsEagerLedger.NextMonthPool | app/xray/bs_limit.py:56-64 | at a month change the reported pool becomes what settling the month's usage above the limit leaves |
| BsEagerLedger.NormalizeIsInvisible | app/db/crud.py:2306-2334 | writing the carry-over, for any set of users, changes nothing a reader sees |
| BsEagerLedger.StepRefines | app/db/crud.py:2306-2334 | each lazy step is the eager step on what a reader sees |
| BsEagerLedger.LazyRefinesEager | app/db/crud.py:2306-2334 | over every run the reported pools and the counters of the month are those of the ledger that settles everyone at each month end |
| BsEagerLedger.ReportedPoolIsEager | app/db/crud.py:2337-2351 | in every state reachable from a panel without counters, the pool and usage that are read are the eager ones |
| BsEagerLedger.CountersConserveTraffic | app/xray/bs_limit.py:12-22 | a counter of the month is exactly the sum of what was recorded for it since the month began |
| BsUsageReset.DropCountersIff | app/db/crud.py:1289-1293 | deleting a user's counters keeps the reported pool exactly when nothing is owed from it |
| BsUsageReset.EventRefinesIff | app/db/crud.py:1289-1293 | on what a reader sees, a reset of usage removes the user's counters of the month and nothing else exactly when nothing is owed; every other step is the eager one |
| BsUsageReset.LazyRefinesEagerIff | app/db/crud.py:1289-1293 | over every run with such resets the lazy ledger is observed as the eager one at all times exactly when every reset finds nothing owed |
| BsUsageReset.DropCountersLosesACharge | app/db/crud.py:1289-1293 | a run of one tick and one month change after which the deletion gives back spent pool |
| BsReview.GroupStale | app/jobs/review_bs_nodes.py:85-103 | the groups hold, per stale period, the sum of the user's counters |
| BsReview.SumStaleSince | app/jobs/review_bs_nodes.py:29-31 | the sum of the groups from a period on |
| BsReview.BatchPoolIsCanonical | app/jobs/review_bs_nodes.py:34-48 | the pool computed in a batch from grouped counters is the pool the canonical normalisation reports |
| BsReview.ReviewUser | app/jobs/review_bs_nodes.py:117-122 | a user is over exactly when the month's usage has reached limit and canonical pool |
| BsReview.FindOverUsers | app/jobs/review_bs_nodes.py:61-122 | exactly the users with a counter of this month that are over |
| BsReview.AddBlocks | app/jobs/review_bs_nodes.py:132-137 | adds the blocks of users that exist and no other |
| BsReview.DropBlocks | app/jobs/review_bs_nodes.py:146-150 | removes exactly the blocks it is given |
| BsReview.ReviewBsNodes | app/jobs/review_bs_nodes.py:51-165 | one review is the specified transition of the block table and changes nothing else |
| BsReview.ReviewLeaves | app/jobs/review_bs_nodes.py:117-159 | from any block table, exactly which blocks a review leaves |
| BsReview.KeptRun | app/jobs/review_bs_nodes.py:132-136 | over every run of validated requests, counters and blocks belong to users and pools are not negative |
| BsReview.ReviewBlocksTheOverLimit | app/jobs/review_bs_nodes.py:51-165 | after every run, a review leaves (node, user) blocked exactly when the node is BS and the month's traffic has reached the limit plus the eagerly settled pool |
| BsReview.ReviewIsIdempotent | app/xray/bs_limit.py:25-27 | a second review finds nothing to block or unblock |
| UsageAccounting.CollectUsage | app/jobs/record_usages.py:334-339 | per user, the sum over all nodes of the values scaled by the node's coefficient |
| UsageAccounting.UsageFallsShort | app/jobs/record_usages.py:333-338 | what a user is charged over all nodes is the exact amount, less than one unit per entry below it |
| UsageAccounting.IncreasedSum | app/jobs/record_usages.py:361-376 | the rows together grow by what is recorded for rows that exist |
| UsageAccounting.UsageConserves | app/jobs/record_usages.py:334-339 | the increments of all users sum to all scaled traffic of the tick |
| UsageAccounting.AdminUsageConserves | app/jobs/record_usages.py:343-351 | the increments of all admins sum to those of the users that have an admin |
| Sums.GroupTotals | app/jobs/record_usages.py:348-351 | the totals per group, whatever the order of the users |
| UsageAccounting.Accounts.RecordUserUsages | app/jobs/record_usages.py:334-376 | every existing user and admin row grows by exactly its increment, together by the traffic of the tick when all of them exist; users of the tick are seen online, and without the lookup of the admins only their totals are skipped |
| BotDaily.UpsertRows | app/jobs/record_usages.py:144-160 | a new row takes `billable` from the tick, an old one keeps its own and adds the bytes |
| BsLedger.Ledger.RecordBotBsDaily | app/jobs/record_usages.py:107-160 | the daily rows after a tick |
| BotDaily.DailyRowsAreTheLog | app/jobs/record_usages.py:107-160 | over every sequence of ticks, a row holds all bytes recorded for its bot, node and day, and `billable` of the first tick that wrote it |
| BotDaily.NodeDayConserves | app/jobs/record_usages.py:107-160 | the rows of one node and day sum to the recorded traffic of users with a bot |
| BsConservation.PanelRunIsLedgerRun | app/jobs/record_usages.py:163-263 | over every run the counters and pools are those of the ledger alone, whatever is written to the daily rows |
| BsConservation.TickMoves | app/jobs/record_usages.py:178-261 | a tick adds all its deltas to the month total of its node and those of users with a bot to the node's daily rows |
| BsConservation.NodeMonthConserves | app/jobs/record_usages.py:107-261 | over every run, since the month began, the counters of a BS node took in all that was recorded on it, and its daily rows of that month the part of users with a bot |
| BsConservation.TablesAgree | app/jobs/record_usages.py:258-263 | in every state reachable from an empty panel, a node's counters sum to its daily rows of the month plus the traffic of users without a bot |
| AddressPolicy.RankedIsRanked | app/xray/address_policy.py:91-96 | for distinct keys the ranking is strictly ordered by score, then by key |
| AddressPolicy.ChosenAreTop | app/xray/address_policy.py:72-98 | `pick_keys` keeps, in candidate order, exactly the candidates with fewer than n better ones |
| AddressPolicy.PickSizeAndOrder | app/xray/address_policy.py:72-98 | it answers exactly min(n, count) distinct keys, and which ones does not depend on the order of the candidates |
| AddressPolicy.RemovingUnpicked | app/xray/address_policy.py:6-8 | removing a key that was not picked changes nothing |
| AddressPolicy.RemovingPicked | app/xray/address_policy.py:6-8 | removing a key keeps all other picks and brings in at most one; so adding one displaces at most one |
| AddressPolicy.RaisingPicked | app/xray/address_policy.py:63-69 | raising the weight of a picked key changes no pick |
| AddressPolicy.PickedAtMost | app/xray/address_policy.py:91-98 | at most n different keys, even with repeated candidates |
| StaticAddresses.StaticBoundIff | app/xray/address_policy.py:91-98 | with equal weights and any size below the number of entries, every hash answers at most that many exactly when all keys are listed equally often and that number divides the size |
| StaticAddresses.StaticHostBoundIff | app/subscription/address_context.py:222-227 | the same for what a host with static addresses shows, for every size |
| StaticAddresses.OneStaticAddressIff | app/subscription/address_context.py:222-227 | for a size of one: exactly when no address is listed twice |
| StaticAddresses.StaticHostOverflows | app/subscription/address_context.py:222-227 | of "a", "a", "b" and a size of two some user is shown all three under some hash function |
| StaticAddresses.PairsAreBounded | app/subscription/address_context.py:222-227 | of "a", "a", "b", "b" and a size of two no user is shown more than two |
| AddressPolicy.EpochContainsDay | app/xray/address_policy.py:116-124 | a day lies in the epoch that starts on its start day |
| AddressPolicy.SameEpochIffSameStart | app/xray/address_policy.py:110-124 | two days share an epoch exactly when they share the start day |
| AddressPolicy.OffsetMovesEpoch | app/xray/address_policy.py:110-113 | on one day the epochs of two offsets differ by the difference of the offsets |
| AddressPolicy.RotationIsLater | app/xray/address_policy.py:110-113 | a rotation by k gives the epoch of the day k periods later |
| AddressPolicy.SmearIsPart | app/xray/address_policy.py:101-107 | the unit hash spreads users over the days of a period in equal parts |
| AddressPolicy.ExhaustedIff | app/xray/address_policy.py:26-52 | a node is exhausted exactly when it has a limit and used the given percentage of it, all of it for a percentage out of range |
| AddressContext.HostSettings | app/subscription/address_context.py:44-57 | when a host narrows, to how many addresses, and for how many days |
| EpochChoices.RotationDrawsLater | app/db/crud.py:2465-2479 | a rotation by k draws what is drawn k periods later |
| EpochChoices.NodesMoveIff | app/subscription/address_context.py:216-244 | on days or with offsets of different epochs a host with nodes shows different addresses under some hash exactly when its size cuts the nodes to choose from and two of these have different addresses |
| EpochChoices.StaticMoveIff | app/subscription/address_context.py:222-227 | a host with static addresses does exactly when some address is listed so rarely that the size can be filled without it |
| EpochChoices.RotationMovesIff | app/db/crud.py:2465-2479 | both for a rotation on one day |
| AddressContext.CandidatesAreDistinct | app/subscription/address_context.py:76-88 | the weighted candidates have one entry per node of the host, under different keys |
| AddressContext.ChosenNodesAreTop | app/subscription/address_context.py:91-119 | all branches choose the reference set among the nodes that are not exhausted, or among all if every node is |
| AddressContext.ChosenNodesLaws | app/subscription/address_context.py:91-119 | exactly min(size, available) nodes, none exhausted unless all are |
| NodeRanking.ChooseIsNodeTop | app/subscription/address_context.py:91-119 | the chosen nodes are those of the pool that fewer than size others beat |
| NodeRanking.SameOddsSameTop | app/xray/address_policy.py:75-98 | two weighings with the same ratios of clamped weights choose the same, for every hash |
| NodeRanking.DrawApart | app/xray/address_policy.py:75-98 | where a ratio changes, some hash gives one of the two nodes the place of the other beside any set of nodes |
| Medians.MedianWithin | app/subscription/address_context.py:84-87 | the median grows at most by the factor its values grow by |
| NodeChoices.PoolDecidesIff | app/subscription/address_context.py:76-119 | two hosts with the same nodes to choose from choose the same for every hash, whatever order and repetition, exactly when that does not move the median beside a known node |
| NodeChoices.LosingNodeIff | app/subscription/address_context.py:76-119 | that losing a node which was not chosen changes nothing, and that losing a node costs no other its place, each hold for every hash exactly when the other nodes keep their ratios or the size cuts nothing; then at most one node comes in |
| NodeChoices.HostsShareChoice | app/subscription/address_context.py:91-119 | with known weights, losing a node changes nothing if it was not chosen and otherwise brings in at most one |
| NodeChoices.RaisingKeepsNodeIff | app/subscription/address_context.py:76-119 | a chosen node whose weight rises keeps its place for every hash exactly when the size cuts nothing, all nodes are known, or the unknown ones do not gain on it |
| NodeChoices.RaisingIff | app/subscription/address_context.py:76-119 | raising the weight of a chosen node changes no choice, for every hash, exactly when besides that one node is chosen or the unknown ones keep their ratio to the other known ones |
| NodeChoices.RaisingChosenNode | app/subscription/address_context.py:91-119 | with known weights, raising the weight of a chosen node changes no choice |
| NodeChoices.RaisedNodeKeepsPlace | app/subscription/address_context.py:76-119 | with weights of at least one, a chosen node whose weight rises keeps its place, and a choice of one node stays |
| NodeChoices.MedianMoves | app/subscription/address_context.py:79-88 | for any two known weights of at least one that differ and an unknown node, the lighter known node can leave unchosen and the choice of one node changes, under some hash function |
| NodeChoices.MedianMovesChoice | app/subscription/address_context.py:79-88 | for example weights 100 and 1 |
| NodeChoices.RaiseMoves | app/subscription/address_context.py:79-88 | for any two known weights of at least one and an unknown node, raising the weight of a chosen node changes which other node is chosen beside it, under some hash function |
| NodeChoices.RaiseMovesOthers | app/subscription/address_context.py:79-88 | for example weights 100 and 10, the first raised to 300 |
| NodeChoices.RaiseLosesNode | app/subscription/address_context.py:79-88 | where the raised weight stays at most one and the two known ones have a mean of at least one, the raised node can lose its place, under some hash function |
| NodeChoices.RaiseLosesNodeExample | app/subscription/address_context.py:79-88 | for example weights 0 and 4, the first raised to 1 |
| AddressContext.PickIsSubsequence | app/subscription/address_context.py:181-244 | the answer is a subsequence of the host's addresses |
| AddressContext.PickNeverEmpties | app/subscription/address_context.py:181-244 | a host with addresses never loses all of them |
| AddressContext.PickNarrows | app/subscription/address_context.py:216-244 | with narrowing on and no effective pin: the size of the answer, and no exhausted node unless all are |
| AddressContext.PinOverrides | app/subscription/address_context.py:211-214 | an effective pin shows exactly the pinned nodes of the host, whatever the settings and exhaustion |
| AddressHistory.NearestDependsOnThreeDays | app/db/crud.py:2544-2568 | a snapshot query depends on its day and the two before it only |
| AddressHistory.RangeAnswersIff | app/db/crud.py:2483-2505 | a range load answers for a snapshot day, for every table, exactly when that day is not before the loaded range |
| AddressHistory.RangeAnswersPeriodIff | app/services/address_history.py:221-236 | range load and daily query agree for every user, day and table exactly for periods of at most 91 days |
| AddressHistory.LongPeriodFails | app/services/address_history.py:274-276 | for every longer period there are a table and a day where they differ |
| AddressHistory.PinsOnDay | app/services/address_history.py:211-219 | the pins of a day, the last covering row of a host winning |
| AddressHistory.RangePinsAnswer | app/db/crud.py:2789-2805 | filtering by the range first and by the day afterwards gives the pins of the daily query |
| AddressHistory.NewestPinWins | app/db/crud.py:2663-2686 | a host has the pin that was created last among those that cover the day, and none if no row covers it |
| AddressHistory.ActivePinsOfTheDay | app/db/crud.py:2571-2589 | while no pin of the host starts or ends during the day, the active pin of any moment is the pin of the day |
| AddressHistory.OffsetKnownIff | app/services/address_history.py:425 | the journal calls the offset of a day known exactly when it had its present value from the start of that day on |
| AddressHistory.CoversIff | app/services/address_history.py:211-219 | a pin counts for a day exactly when some moment of the day lies in its life |
| AddressHistory.OlderIsAnOrder | app/services/address_history.py:211-219 | the rows of a host are totally ordered, by creation and then by key |
| AddressJournal.CollectSnapshots | app/subscription/address_context_builder.py:99-106 | one snapshot per epoch start, whatever the order of the periods |
| AddressJournal.PickIsStableInEpoch | app/subscription/address_context.py:176-244 | two renders in one epoch with the same pin and exhausted set show the same list, whatever snapshots were written after the epoch start and whatever other hosts narrow |
| AddressJournal.ExhaustedMeansLittleLeft | app/subscription/address_context.py:122-147 | a node counts as exhausted exactly when at most the cut-off share of its limit is left |
| AddressJournal.FindSnapshot | app/services/address_history.py:229-236 | the nearest snapshot not after the day, or nothing if it is more than two days old |
| AddressJournal.ReconstructOne | app/services/address_history.py:428-529 | the entry of one host is consistent in itself, and shows what every render from the same inputs showed, shortcut aside |
| AddressJournal.ReconstructDay | app/services/address_history.py:386-531 | one entry per host in order, with the pins of that day |
| AddressJournal.ReconstructRange | app/services/address_history.py:282-290 | exactly the days of the range, each with its journal |
| AddressJournal.RestorableIff | app/services/address_history.py:431-496 | an entry is restorable exactly when the composition was recorded and a pin decided, or nothing had to be chosen, or weights and offset of the day are known |
| AddressJournal.EntryIsConsistent | app/services/address_history.py:431-529 | an entry is unknown and empty, or restorable; it names exactly the nodes whose addresses it lists, and only pinned ones when a pin decided |
| AddressJournal.JournalAgreesIff | app/services/address_history.py:428-529 | from the same inputs, a restorable entry shows what the render shows exactly when the shortcut was not taken past an exhausted node |
| AddressJournal.ShortcutShowsWithheld | app/services/address_history.py:470-482 | otherwise it shows all addresses, and the render showed fewer |
| AddressJournal.ShortcutCanMiss | app/services/address_history.py:470-482 | a concrete host where this happens |
| AddressJournal.JournalMatchesRender | app/services/address_history.py:239-290 | end to end from the tables: a journal read later for a range agrees with a render of a steady day |
| XrayRouting.FirstMatchAppend | app/xray/host_balancer.py:38-40 | appended rules see only the packets no earlier rule matched |
| HostBalancer.RetargetIff | app/xray/host_balancer.py:90-92 | retargeting keeps a rule's conditions, and merges its target into the balancer exactly when the rule is not conflicted |
| HostBalancer.CatchAllIff | app/xray/host_balancer.py:57-62 | a rule is taken for a catch-all exactly when it names both networks, goes to the host's balancer alone and takes every packet however other conditions are judged |
| HostBalancer.ManagedMeaningIff | app/xray/host_balancer.py:82-101 | for every rule list and packet: the rewritten rules decide as before with "proxy", balancers and the default merged, exactly when the deciding rule names one target |
| HostBalancer.ManagedPreservesMeaning | app/xray/host_balancer.py:66-70 | with one target per rule, meaning is preserved for every packet and nothing is left to the default |
| HostBalancer.ConflictedRuleChangesMeaning | app/xray/host_balancer.py:90-92 | a rule with both targets loses its direct outbound |
| HostBalancer.ManagedKeepsConditional | app/xray/host_balancer.py:87-99 | all rules but catch-alls are kept in order, and exactly one catch-all is left |
| HostBalancer.ManagedIsIdempotent | app/xray/host_balancer.py:87-100 | rewriting again changes nothing |
| HostBalancer.UnmanagedChangesOnlyDefault | app/xray/host_balancer.py:72-77 | without explicit balancing only packets that no rule matched change |
| HostBalancer.RewriteRules | app/xray/host_balancer.py:87-99 | the loop with its flag computes the rewritten list |
| HostBalancer.ClientConfig.ApplyTemplateBalancing | app/xray/host_balancer.py:71-80 | a template with balancers is left alone; otherwise balancer, rule and observatory are added |
| HostBalancer.ClientConfig.ApplyHostBalancing | app/xray/host_balancer.py:82-123 | all balancing sections are replaced, and exactly the observatory of the strategy is left |
| HostBalancer.ProxyTagsAreDistinct | app/xray/host_balancer.py:20-23 | different addresses have different tags, all starting with "proxy" |
| HostBalancer.BalancedSelectsIff | app/xray/host_balancer.py:26-32 | the prefix selector reaches exactly the host's addresses exactly when no other tag starts with "proxy" |
| CascadeConfig.TagsIdentifyRoutes | app/xray/cascade_config.py:19-20 | two routes share an outbound exactly when they agree on exit and inbound; a tag is a prefix of another exactly for the same exit and a continued inbound |
| CascadeConfig.AddedOutbounds | app/xray/cascade_config.py:155-161 | one outbound per different tag of the routes |
| CascadeConfig.ObservedIff | app/xray/cascade_config.py:92-203 | an observatory is added exactly when some entry is balanced by a strategy that needs it, and an unknown strategy becomes "random" |
| CascadeConfig.AddedLead | app/xray/cascade_config.py:35-68 | every added outbound has the address, keys and identity of the first route of its tag, and the fingerprint of a browser unless that route has one |
| CascadeConfig.AppendOutbounds | app/xray/cascade_config.py:155-161 | the base outbounds, then the added ones in order of first occurrence |
| CascadeConfig.GroupRoutes | app/xray/cascade_config.py:163-166 | per entry its routes in order, and the entries in order of first occurrence |
| CascadeConfig.CollectSelector | app/xray/cascade_config.py:171-176 | the group's tags without repetition, in order |
| CascadeConfig.BuildEntry | app/xray/cascade_config.py:170-190 | the rule of an entry, and a balancer exactly when it has several outbounds |
| CascadeConfig.BuildEntries | app/xray/cascade_config.py:168-190 | the rules and balancers of all entries in order |
| CascadeConfig.EntryConfig | app/xray/cascade_config.py:152-203 | the whole entry document |
| CascadeConfig.EntryDispatch | app/xray/cascade_config.py:181-190 | packets that a base rule matches keep the name of their target, other packets of an entry go to its rule, all else to the default |
| CascadeConfig.BaseReachesIff | app/xray/cascade_config.py:152-190 | a packet that no entry takes keeps every outbound it could leave by, and gains one exactly when the base balancer it goes to selects the tag of an added outbound by prefix, or no rule matches and the base has no outbound |
| CascadeConfig.BalancerTakenOver | app/xray/cascade_config.py:178-180 | a packet whose base rule names the balancer of an entry reaches what the entry's selector takes |
| CascadeConfig.BaseBalancerExample | app/xray/cascade_config.py:178-190 | a base balancer with selector "C", "D" takes the outbound of a route along |
| CascadeConfig.EntryReaches | app/xray/cascade_config.py:152-203 | such a packet reaches existing outbounds only, among them all of its entry's routes |
| CascadeConfig.EntryReachesExactly | app/xray/cascade_config.py:131-138 | it reaches exactly the outbounds of its entry's routes exactly when there is one or no other tag of the document continues one of them |
| CascadeConfig.ForeignRouteIff | app/xray/cascade_config.py:155-176 | among the outbounds of the routes that happens exactly when a foreign route leaves by the same exit over an inbound with a continued tag |
| CascadeConfig.EntryReachesIff | app/xray/cascade_config.py:131-138 | in terms of the base document and the routes: exactly when a packet of an entry reaches the outbounds of its entry's routes and nothing else |
| CascadeConfig.ContinuedByRoute | app/xray/cascade_config.py:19-20 | when the tag of another route does that |
| CascadeConfig.SelectorTakesForeignOutbound | app/xray/cascade_config.py:178-186 | two routes of one entry and a route with a continued inbound make the entry reach a foreign outbound |
| CascadeConfig.ForeignOutboundExample | app/xray/cascade_config.py:178-186 | a concrete node where it does |
| CascadeConfig.CollectUuids | app/xray/cascade_config.py:143-145 | the service uuid of each inbound tag |
| CascadeConfig.FirstUuidWins | app/xray/cascade_config.py:141-145 | the first client of a tag decides |
| CascadeConfig.ExitConfig | app/xray/cascade_config.py:139-150 | every inbound keeps its clients and gets the service client of the first entry that names it, once; nothing else changes |
| CascadeConfig.ExitRoleLaws | app/xray/cascade_config.py:23-32 | no client is lost, at most one is added, the service client is there, and repeating changes nothing |
| ComposeOutcome.ComposeSucceedsIff | app/subscription/host_candidates.py:186-245 | a composition succeeds exactly when all selectors answer, the prefixes differ, and the tags the sources ask for are distinct, not blank and at most 512; it then has exactly these tags |
| ComposeOutcome.ComposeOutcomes | app/subscription/host_candidates.py:186-245 | the error of every composition that fails: the first bad tag, a collision before an excess, or the group that stops by its prefix or its selector |
| ComposeOutcome.TwoOwnEndpoints | app/subscription/host_candidates.py:213-229 | a recipient with two endpoints of its own gets "proxy" and "proxy-2" |
| ComposeOutcome.SourcesAre | app/subscription/host_candidates.py:230-244 | the sources of a group are its selected hosts that are not only a shell for others, in order, under their own name |
| ComposeOutcome.OwnSourceIff | app/subscription/host_candidates.py:227-228 | the recipient is a source, before all others and under "proxy", exactly when it asks for it |
| ComposeOutcome.AllBlockedIff | app/subscription/host_candidates.py:204-245 | a composition counts as blocked exactly when some source is blocked and every other one has an endpoint |
| ComposeEndpoints.NumberedTagIs | app/subscription/host_candidates.py:214-219 | the first tag of a prefix is the prefix, from any other its number can be read after the hyphen, and no two are the same |
| ComposeEndpoints.ComposeAddsSources | app/subscription/host_candidates.py:227-244 | a composition that succeeds is one pass over all sources, across groups |
| ComposeEndpoints.ComposedTags | app/subscription/host_candidates.py:204-245 | on success all tags are pairwise distinct, not blank and at most 512, and each prefix is numbered without gaps |
| ComposeEndpoints.ComposedEndpoints | app/subscription/host_candidates.py:204-225 | the endpoints are those of the contributing sources in order, and the flags say which kinds of source there were |
| ComposeEndpoints.ComposedEndpointsAreOpen | app/subscription/host_candidates.py:207-211 | no endpoint of a blocked source appears |
| ComposeEndpoints.ComposedNumbers | app/subscription/host_candidates.py:214-219 | the k-th endpoint of a prefix, in order of the sources, carries the number k |
| ComposeEndpoints.Collector.AddOne | app/subscription/host_candidates.py:214-225 | one endpoint, with both errors |
| ComposeEndpoints.Collector.AddList | app/subscription/host_candidates.py:213-225 | the endpoints of one source, stopping at the first error |
| ComposeEndpoints.Collector.Add | app/subscription/host_candidates.py:204-225 | one source: blocked, unavailable or contributing |
| ComposeEndpoints.Collector.AddAll | app/subscription/host_candidates.py:238-244 | several sources, stopping at the first error |
| ComposeEndpoints.ListSources | app/subscription/host_candidates.py:238-244 | which hosts of a group become sources, and under what name |
| ComposeEndpoints.AddOneGroup | app/subscription/host_candidates.py:230-244 | one group, with its prefix and selection errors |
| ComposeEndpoints.ComposeGroups | app/subscription/host_candidates.py:229-244 | all groups, stopping at the first error |
| ComposeEndpoints.ComposeEndpoints | app/subscription/host_candidates.py:186-245 | the answer or the error of the whole composition |
| XrayRouting.SelectedExactlyIff | app/subscription/v2ray.py:491-493 | a prefix selector reaches exactly the tags it lists exactly when no other tag continues one of them, which is what the prefix check tests |
| ComposedConfig.ComposedSelectsMembers | app/subscription/v2ray.py:480-497 | a managed document that is accepted has distinct tags and one balancer, which reaches exactly the composed endpoints |
| ComposedConfig.ComposedRouting | app/subscription/v2ray.py:494-497 | every packet is decided by a rule, its target exists, and it is the template's decision with "proxy" and balancers merged |
| ComposedConfig.ComposedReferences | app/xray/host_injection.py:94-119 | all references between outbounds of an accepted document resolve |
| ComposedConfig.ComposedEndToEnd | app/subscription/v2ray.py:480-497 | from recipient to document: the balancer reaches exactly the composed endpoints, between 1 and 512, under distinct tags that are not blank |
| ComposedConfig.ComposedIsManaged | app/xray/host_balancer.py:82-123 | a managed document has one balancer over the tags of its endpoints and exactly the observatory of its strategy over the same tags, and without a strategy that of least ping |
| ComposedConfig.ComposedOtherwise | app/subscription/v2ray.py:490-498 | a template with balancers of its own keeps its routing and observatories when the host has no strategy |
| ComposedConfig.BuiltAt | app/subscription/v2ray.py:481-484 | every endpoint has its outbound, which dials through a helper of its own exactly when it needs one |
| ComposedConfig.HelpersDiffer | app/subscription/v2ray.py:484 | no two endpoints share a helper tag |
| ComposedConfig.BalancedOutboundsAre | app/subscription/v2ray.py:513-522 | the outbounds of the addresses come first under "proxy", "proxy-1" and so on, each dials through the helper after them exactly when there is one, and those of the template follow |
| ComposedConfig.BalancedRouting | app/xray/host_balancer.py:65-123 | with a strategy the targets of the template are merged into the balancer for every packet; without one a template with balancers keeps everything, and any other only gains a last rule, its balancer and an observatory if it had none |
| ComposedAcceptance.GraphPassesIff | app/xray/host_injection.py:94-119 | the reference check passes exactly a document with distinct balancer tags whose rules, balancers and outbounds refer to what exists |
| ComposedAcceptance.AcceptedIff | app/subscription/v2ray.py:480-497 | a document is accepted exactly when its tags differ, in a managed one no other tag continues that of an endpoint, and all references lead somewhere; and which of the first two checks refuses it otherwise |
| ComposedConfig.BuildOutbounds | app/subscription/v2ray.py:481-484 | the outbounds and participants of the endpoints, with their helper outbounds |
| ComposedConfig.Subscription.AddComposed | app/subscription/v2ray.py:480-497 | one document is appended when all checks pass; otherwise the error is raised and nothing is appended |
| ComposedConfig.BalancedReachesIff | app/subscription/v2ray.py:503-522 | the balancer of a host with several addresses reaches exactly their outbounds exactly when no template tag starts with "proxy" |
| ComposedConfig.TemplateProxyIsReached | app/subscription/v2ray.py:503-522 | a template outbound "proxy-eu" is reached as well |
| ComposedConfig.Subscription.AddBalanced | app/subscription/v2ray.py:503-522 | the document of a host with several addresses is appended |
| Utf8.DecodeIff | app/utils/jwt.py:88 | decoding answers a text exactly for the bytes of its encoding |
| Utf8.KnownEncodings | app/utils/jwt.py:88 | the encodings of characters of one to four bytes from section 7 of RFC 3629 |
| Base64Url.SextetsReturn | app/utils/jwt.py:60 | regrouping three bytes into four sextets loses nothing, with one or two bytes left over as well |
| Base64Url.RoundTrip | app/utils/jwt.py:85-87 | the text without its padding decodes to the bytes that were encoded |
| Base64Url.ReadIff | app/utils/jwt.py:85-87 | exactly texts of the alphabet with the right padding are decoded, as the bytes of their characters |
| Base64Url.KnownTexts | app/utils/jwt.py:85-87 | the encodings of section 10 of RFC 4648 and the two characters of section 5 |
| Numerals.ReadPrinted | app/utils/jwt.py:99 | a printed number is read back |
| Numerals.ReadLeniently | app/utils/jwt.py:99 | signs, blanks and single underscores are accepted around and in a number |
| Numerals.ReadRefuses | app/utils/jwt.py:99 | letters, nothing and a leading underscore are not |
| Numerals.ReadBeyondAscii | app/utils/jwt.py:99 | blanks and digits of any script count as such, and other characters beyond ASCII are refused |
| Numerals.ReadBlanks | app/utils/jwt.py:99 | the blanks of ASCII are skipped |
| Strings.DecIsCanonical | app/utils/jwt.py:59 | the numeral of a number is its only one without leading zeros |
| Strings.DecValueFront | app/utils/jwt.py:59 | each digit further left counts ten times as much |
| SubscriptionToken.CreatedIsNotJwt | app/utils/jwt.py:72 | a created token is never taken for an older one |
| SubscriptionToken.FieldsIff | app/utils/jwt.py:98-100 | the fields read are those written exactly when the username has no comma and the time is a date |
| SubscriptionToken.CreatedTokenFields | app/utils/jwt.py:82-100 | a created token is read as the fields of its text wherever the signing key stands among the keys |
| SubscriptionToken.TokenRoundTripIff | app/utils/jwt.py:58-102 | the round trip gives back username and time exactly when there is no comma, the data has at least four bytes and the time is a date, for every key list with the signing key |
| SubscriptionToken.TokenRoundTrip | app/utils/jwt.py:58-102 | for times from 100 to the end of the year 9999, exactly when there is no comma |
| SubscriptionToken.AdmittedRoundTrip | app/models/user.py:13 | for every username the validator admits the round trip succeeds |
| SubscriptionToken.CommaCutsTheName | app/utils/jwt.py:98-100 | a username with a comma is cut at it, and what follows is taken for the time, or makes the parser raise |
| SubscriptionToken.CommaNamesAnother | app/utils/jwt.py:98-100 | "a, 5" is read as "a" at second 5 |
| SubscriptionToken.CommaRaises | app/utils/jwt.py:98-100 | "a,b" makes the parser raise |
| SubscriptionToken.AcceptedIff | app/utils/jwt.py:82-102 | a payload is answered exactly for data that decodes, is signed with one of the keys, and names the user and the time |
| SubscriptionToken.RefusedIff | app/utils/jwt.py:82-102 | a token whose data decodes is refused exactly when no key gives its ten characters from the hash of data and key |
| SubscriptionToken.ForeignKeyIff | app/utils/jwt.py:58-102 | a created token is answered with nothing exactly when it is too short or no key of the list gives the ten characters its own key gave |
| SubscriptionToken.ForeignKeyIsRefusedIff | app/utils/jwt.py:58-102 | under some hash it is refused exactly when its key is not in the list, or it is too short |
| SubscriptionToken.ExchangedIsRefusedIff | app/utils/jwt.py:82-102 | data under the signature of other data is refused under some hash exactly when no key completes it to the text that was signed |
| SubscriptionToken.ExchangedDataIsRefused | app/utils/jwt.py:82-102 | the signature of one token does not carry over to the data of another user or time |
| SubscriptionToken.OlderTokenIff | app/utils/jwt.py:72-80 | an older token is answered with nothing exactly when no key opens it as a subscription token, and with a payload exactly when the first key that does names that user and date |
| SubscriptionToken.KeyOrderIsIrrelevant | app/utils/jwt.py:68-102 | any list of the same keys answers the same, for a token that is no older one or that all keys opening it answer alike |
| SubscriptionToken.KeyOrderIff | app/utils/jwt.py:68-102 | every order of the keys answers the same exactly for these tokens |
| SubscriptionToken.GetSecretKeys | app/utils/jwt.py:21-29 | the current key first, then every other key that is not empty, each once |
| SubscriptionToken.ReadJwt | app/utils/jwt.py:72-80 | the loop over the keys answers nothing exactly when no key opens the token, and a payload exactly when the first key that does names it |
| SubscriptionToken.ReadSigned | app/utils/jwt.py:92-102 | the fields when some key signs, else nothing |
| SubscriptionToken.GetSubscriptionPayload | app/utils/jwt.py:68-102 | a token that is no older one is answered with a payload exactly when it stands for that user and time, an older one exactly when the first key that opens it names them, a short one with nothing |
| Remarks.NumberedInjective | app/subscription/clash.py:69 | numbered names of one remark are all different, and differ from the remark |
| Remarks.NumberedIdentifies | app/subscription/clash.py:69 | a numbered name determines its remark and its number |
| Remarks.TakenBound | app/subscription/clash.py:67-72 | no more candidates can be taken than there are names, so the loop ends |
| Remarks.UniqueRemarkIs | app/subscription/clash.py:64-72 | the name is free; it is the remark if that is free, else the remark with the least free number |
| Remarks.ValidateRemark | app/subscription/singbox.py:32-40 | the loop finds that name |
| Remarks.NamesAreDistinct | app/subscription/clash.py:286-287 | over any sequence of adds all names are different |
| Remarks.NameOf | app/subscription/clash.py:64-72 | the k-th name is its remark exactly when no earlier node took it, else the remark with a number of at most k + 1 |
| Remarks.ClashConfiguration.Add | app/subscription/clash.py:245-287 | the document is the accepted entries in order under their names, after every add |
| Remarks.ClashNamesAreDistinct | app/subscription/clash.py:250-287 | so its nodes have different names |
| Remarks.SingBoxConfiguration.Add | app/subscription/singbox.py:270-321 | the template's outbounds, then the accepted entries in order under their names |
| Remarks.FormatsTake | app/subscription/clash.py:245-287 | which networks and protocols each of the formats takes, relative to one another |
| Remarks.NodeAt | app/subscription/singbox.py:270-321 | an entry has the name given to it, its own address and its protocol, "ss" in Clash for "shadowsocks" |
| Remarks.PlainNamesIff | app/subscription/singbox.py:32-40 | when no remark looks like a numbered other one, the names are the remarks and their numbers from 2 to how often they occur |
| Remarks.SingBoxTagsAreDistinctIff | app/subscription/singbox.py:32-43 | for such remarks, all tags are different exactly when the template's are and none of these is such a name |
| Remarks.TemplateTagCollides | app/subscription/singbox.py:284-285 | for all remarks: a template tag equal to an accepted remark always collides |
| Remarks.UnrelatedTemplateIsDistinct | app/subscription/singbox.py:284-285 | for all remarks: a template without remarks and numbered remarks never collides |
| Remarks.TagsByNames | app/subscription/singbox.py:32-43 | for all remarks: tags are different exactly when the template's are and none of them was given as a name |
| Remarks.DirectCollides | app/subscription/singbox.py:284-285 | a server called "direct" beside the template's outbound of that name |
| ClientStrip.PrefixIff | app/xray/bs_limit.py:124 | the prefix of a user starts the email of another exactly when they are the same, whatever the username |
| ClientStrip.StripRemovesTheBlocked | app/xray/bs_limit.py:113-120 | exactly the clients of blocked users go, the others stay in order |
| ClientStrip.NoEmailStays | app/xray/bs_limit.py:133 | a client without an email stays |
| ClientStrip.StripTwice | app/xray/bs_limit.py:121-122 | stripping two sets is stripping their union, and stripping nobody changes nothing |
| ClientStrip.StripClients | app/xray/bs_limit.py:133 | the loop over the clients of one inbound |
| ClientStrip.StripInbound | app/xray/bs_limit.py:127-136 | an inbound with clients is replaced by a new one, any other is shared |
| ClientStrip.StripBlockedClients | app/xray/bs_limit.py:113-138 | all inbounds in order, with nothing that existed before modified |
| SyncBatch.HistoryInvariant | app/routers/user.py:152-161 | in every history pending tasks are submitted and not completed, at most a window of them, and each event brings the end exactly one step nearer |
| SyncBatch.WindowIsKept | app/routers/user.py:127-128 | at no time are more tasks pending than the window |
| SyncBatch.NobodyIsLost | app/routers/user.py:152-161 | at any time, whoever was submitted has completed or is pending |
| SyncBatch.FinishedCompletesAll | app/routers/user.py:124-161 | at the end every user completed exactly as often as asked for |
| SyncBatch.NeverStuck | app/routers/user.py:152-161 | a history that is not finished can go on |
| SyncBatch.FinishedAtTheEnd | app/routers/user.py:144-148 | what the progress reads turns to finished with the very last event and no earlier one, in any order of completion |
| SyncBatch.Progress.MarkFinished | app/routers/user.py:116-121 | an unknown operation is left alone |
| SyncBatch.Progress.OnDone | app/routers/user.py:137-150 | a completion is counted, and finishes the operation once enough are done |
| SyncBatch.BatchSyncUsers | app/routers/user.py:124-161 | the loops terminate with a finished history, whatever task completes next, and after each completion the progress reads as finished exactly when enough are done; an unknown operation always reads as running |
| SyncBatch.RunBatch | app/routers/user.py:827-843 | the operation reads as finished with all users done, also when there are none |

## Left out

- BsEagerLedger.LazyRefinesEager: runs do not contain a changing panel limit or a changing set of BS nodes. Those with the
  deletion of counters by `reset_user_data_usage` are in `BsUsageReset.LazyRefinesEagerIff`.
- PeriodKeys.PeriodKeyOrder: years before 1000 and after 9999; the ledger itself works on month numbers.
- Numerals.ReadPrinted: the interpreter's limit of 4300 digits, which only leading zeros can reach within the years of a
  date. The claim `iat` of an older token is an integer here.
- Base64Url.RoundTrip: more than two padding characters inside the received text are refused outright, which interpreter
  versions handle differently. Lone surrogates, which cannot be encoded, are not texts here.
- AddressContext.PickNeverEmpties: a host whose addresses come from nodes has one node per address, as the loader builds it.
- Remarks.SingBoxTagsAreDistinctIff: with remarks that look like numbered other ones the names depend on their order; there
  `TagsByNames` and the two one-way lemmas hold.
- UsageAccounting.Accounts.RecordUserUsages: the loss of a tick when the write itself fails.
- CascadeConfig.BaseReachesIff: a base rule that names the balancer of an entry with several outbounds is in
  `BalancerTakenOver`.
- CascadeConfig.EntryReachesIff: a base document that already has a balancer under an entry's balancer tag; the last one of
  that name is taken to win.
- ComposedConfig.ComposedEndToEnd: documents that keep the template's own balancers are checked for references only, as in
  the code.
- Remarks.ClashConfiguration.Add: options of a node beyond its name, kind and server; reversing the list when rendering.
- SyncBatch.BatchSyncUsers: what the executor does inside a task; the error path of the surrounding driver.
- Floating point: coefficients, weights, scores and ratios are exact reals; `is_exhausted` is stated without rounding.
- Hash functions, logarithm and the JWT library are parameters.
- SQL text, transactions, locks, retries, and rows that disappear between two queries of one step.
- Visibility filters of hosts (bot, inbound, disabled, composition), which decide the lists the journal is given.
- The TTL cache of exhausted nodes, process caches and logging.
- Share links and the per-transport builders of all client formats.
- gRPC calls, node connections, HTTP routes, notifications and the dashboard.

# Verified model of the dashboard's algorithmic cores

This project models five self-contained cores of the dashboard and proves what they are for, over all inputs and all
runs.

- **Polling** (`Polling*.dfy`): the FIFO scheduler with a bounded number of slots, and any number of polling controllers
  that share it. `PollingClasses` has the classes with the source's fields and loops; each method is proved to do what a
  function of `PollingModel` says. `PollingSystem` makes these functions the steps of one state machine, in which calls,
  gate events, timers, fetches, slot releases and promise continuations come in any order. `PollingInvariant` proves what
  every step keeps, and `PollingMoves` reduces every step to one of a few moves of the scheduler. On these rest the
  results about whole runs in `PollingRuns` (mutual exclusion, fairness, never stuck, stale results) and
  `PollingHistory` (the snapshot is a function of the accepted results). `PollingProgress` shows that under
  every schedule of due host events nobody is polling in the end, and `PollingScheduling` repeats the fairness results for
  tasks of any caller.
- **Rate limiter** (`RateLimiter*.dfy`): the token buckets in a map of bounded size. The bounded limiter refines one
  that never forgets a peer, under a load that is shown to be exactly the one it tolerates. For any
  load, the project gives the exact condition under which a denied call costs nobody an answer.
- **JSON scanner** (`Json*.dfy`): the scanner for repeated configuration fields. `JsonGrammar` defines JSON texts by
  sections 2 to 7 of RFC 8259 as syntax trees with their spelling, and the scanner is shown to judge exactly the
  top-level names of every text.
- **IPv4** (`Bits`, `Ipv4*`, `NodeAddress*`, `ConflictRecovery`, `Cidr*`): 32-bit masks by bit operations, the canonical
  notation, the sparse search for the lowest free address, the four-octet selection, the two ways to recover from an
  allocation conflict, and CIDR blocks chosen octet by octet.
- **Topology** (`Ordering`, `Topology*`): the drawing of the network as a tree with one row per leaf, and the filters of
  the topology page.

Classes and loops are kept where the source has them. A method that changes state equates the new state with a function
of the old one; the properties are proved about these functions.

## How the source is read

- Dashboard records have the fields that the modelled code reads (`Records.dfy`).
- An abort controller is a token with its controller and its place in creation order. A promise settles, its `finally`
  callback runs and its continuation runs in separate steps, in any order the host may choose.
- Clock values, random numbers, gate states and the conversion to lower case are parameters of the steps.
- Exceptions are results with the kind of the exception.
- Reals stand for floating-point numbers. The refill rate is one token in 6000 milliseconds.
- Network, Master and broadcast addresses are blocked by the factory, not by the class. Results that need the first and
  the last address of the block to be blocked require `FactoryBuilt`, which `CreatedIsFactoryBuilt` establishes; that the
  Master and other nodes are never proposed is `AvailableIsUnclaimed` and `ProposalIsLeastUnclaimed`.

## Three statements that need a condition

- The model of a topology can depend on the order of the runtime entries. `OrderIsForgottenUnlessTied` gives the exact
  condition under which it does not: no two different entries of a node in the tree share the greatest tie-break text of
  that node. `TiesAreTold` gives a legal input that violates it, and `ModelForgetsOrder` says what is the same all the same.
- A denied call can cost another peer an answer although the map keeps the denied peer (`KeepingIsNotEnough`): the denied
  call makes its peer look recent, so the map forgets somebody else. `DenialIsFreeUnlessSetApart` gives the exact
  condition, on the map of the real run and the map of the run without the call.
- Filtering without criteria is not the identity: it drops VNRs without nodes, and orphans. `NoCriteriaKeepsClosed`
  gives the exact condition under which it changes nothing.

## Model

| member | source | states |
|---|---|---|
| PollingClasses.BoundedPollingScheduler.Create | apps/dashboard/src/lib/behavior/polling.ts:46-51 | Only a positive safe integer makes a scheduler, which is then idle and empty; anything else is an error |
| PollingClasses.BoundedPollingScheduler.Schedule | apps/dashboard/src/lib/behavior/polling.ts:65-95 | An aborted request is rejected at once; any other joins the end of the queue and the queue is drained |
| PollingClasses.BoundedPollingScheduler.Drain | apps/dashboard/src/lib/behavior/polling.ts:97-118 | The loop starts tasks from the head of the queue while a slot is free, and rejects the aborted ones it meets |
| PollingClasses.BoundedPollingScheduler.OnAbort | apps/dashboard/src/lib/behavior/polling.ts:79-86 | The abort listener removes the task from the queue and rejects it, and does nothing once the task has left the queue |
| PollingClasses.BoundedPollingScheduler.RunSettled | apps/dashboard/src/lib/behavior/polling.ts:110-112 | The promise of a run settles the task; the slot stays taken |
| PollingClasses.BoundedPollingScheduler.SlotReleased | apps/dashboard/src/lib/behavior/polling.ts:113-116 | The `finally` callback frees the slot and drains the queue |
| PollingClasses.PollingController.Create | apps/dashboard/src/lib/behavior/polling.ts:197-220 | Only a positive finite interval makes a controller, which is idle, with the initial data marked stale |
| PollingClasses.PollingController.Start | apps/dashboard/src/lib/behavior/polling.ts:229-234 | Start once, subscribe to the gate and act on it |
| PollingClasses.PollingController.Stop | apps/dashboard/src/lib/behavior/polling.ts:236-250 | Clear the timer, abort the request, return to idle |
| PollingClasses.PollingController.Refresh | apps/dashboard/src/lib/behavior/polling.ts:252-258 | Abort the request, clear the timer, act on the gate |
| PollingClasses.PollingController.HandleGateChange | apps/dashboard/src/lib/behavior/polling.ts:260-279 | Pause behind a closed gate, keep a request in flight, otherwise poll at once |
| PollingClasses.PollingController.Arm | apps/dashboard/src/lib/behavior/polling.ts:281-295 | Replace the timer and announce the next attempt |
| PollingClasses.PollingController.Poll | apps/dashboard/src/lib/behavior/polling.ts:303-322 | Issue a new request for the controller, or pause when the gate has closed meanwhile |
| PollingClasses.PollingController.ContinuePoll | apps/dashboard/src/lib/behavior/polling.ts:323-350 | Accept the result of the current request only, and arm the timer by jitter or back-off |
| PollingSteps.CreatedIsIdle | apps/dashboard/src/lib/behavior/polling.ts:197-220 | A new controller is idle with nothing under way, and shows its initial data as stale, or nothing as empty |
| PollingSteps.StartActsOnGate | apps/dashboard/src/lib/behavior/polling.ts:229-279 | Starting a stopped controller subscribes it; it pauses with reason offline or hidden exactly when the gate says so, and otherwise has a timer due at once |
| PollingSteps.RefreshActsOnGate | apps/dashboard/src/lib/behavior/polling.ts:252-279 | Refreshing aborts the request under way, then pauses or has a timer due at once |
| PollingSteps.GateChangeActsOnGate | apps/dashboard/src/lib/behavior/polling.ts:260-279 | A closed gate pauses, aborts the request and clears the timer; an open one leaves a request under way alone and otherwise polls at once |
| PollingSteps.TimerActsOnClosedGate | apps/dashboard/src/lib/behavior/polling.ts:303-309 | A timer that fires behind a closed gate pauses the controller and issues no request |
| PollingSteps.TimerIssuesRequest | apps/dashboard/src/lib/behavior/polling.ts:311-322 | A timer that fires behind an open gate issues a new request, which runs at once when a slot is free and otherwise is the last of the queue; the phase is polling |
| PollingSteps.StopEndsEverything | apps/dashboard/src/lib/behavior/polling.ts:236-250 | A stopped controller is idle and unsubscribed, its request is aborted, its timer is gone, and its data stays |
| PollingSteps.OtherCallsDoNothing | apps/dashboard/src/lib/behavior/polling.ts:229-258 | Starting twice, and stopping or refreshing what is not started, changes nothing |
| PollingSteps.AbortedTaskIsRejected | apps/dashboard/src/lib/behavior/polling.ts:65-68 | A task whose signal is aborted before it is scheduled is rejected at once and never queued |
| PollingSteps.WaitingTaskIsRejected | apps/dashboard/src/lib/behavior/polling.ts:79-86 | A task aborted while it waits is rejected and leaves the queue, the others stay |
| PollingHistory.JitterIsProportional | apps/dashboard/src/lib/behavior/polling.ts:155-161 | The delay is the interval times 0.9 to 1.1 in proportion to the random value, rounded; values outside 0 to 1 are cut off, and one that is not finite counts as 0.5 |
| PollingModel.JitteredIntervalMilliseconds | apps/dashboard/src/lib/behavior/polling.ts:155-161 | The delay stays within a tenth of the interval, up to rounding, for every random value, finite or not; a negative or non-finite interval is an error |
| PollingSystem.DrainStartsPrefix | apps/dashboard/src/lib/behavior/polling.ts:97-118 | Draining starts exactly the longest prefix of the queue that the free slots allow, and changes nothing else |
| PollingSystem.ScheduleStartsOrQueues | apps/dashboard/src/lib/behavior/polling.ts:65-118 | A new task starts at once iff a slot is free, and otherwise waits behind all others |
| PollingSystem.ReleaseStartsHead | apps/dashboard/src/lib/behavior/polling.ts:113-116 | Freeing a slot starts exactly the head of the queue |
| PollingSystem.AbortDequeues | apps/dashboard/src/lib/behavior/polling.ts:79-90 | Aborting removes exactly that task from the queue and rejects it; a task that has started is only flagged |
| PollingInvariant.NextKeepsInv | apps/dashboard/src/lib/behavior/polling.ts:65-351 | Every call and every host event keeps the invariant of the whole system, for any number of controllers on one scheduler |
| PollingInvariant.ReachableInv | apps/dashboard/src/lib/behavior/polling.ts:65-351 | The invariant holds after every run: timers, requests, queue, slots and phases always agree |
| PollingRuns.NeverStuck | apps/dashboard/src/lib/behavior/polling.ts:229-351 | A started controller that is not paused waits on a live timer of its own or on a live request; a queued request waits behind a busy slot |
| PollingRuns.AcceptedRequestIsNotAborted | apps/dashboard/src/lib/behavior/polling.ts:337-341 | The request a controller still waits for is never aborted, so the early return after a failure is unreachable |
| PollingRuns.SlotsAreExclusive | apps/dashboard/src/lib/behavior/polling.ts:97-118 | Runs holding slots are counted exactly and never exceed the maximum; a non-empty queue means all slots are taken; each controller has at most one queued task, and none of them is aborted |
| PollingRuns.InterruptedIsSuperseded | apps/dashboard/src/lib/behavior/polling.ts:236-279 | Stop, refresh and pause abort the current request and take it from its controller |
| PollingRuns.StaleResultIsIgnored | apps/dashboard/src/lib/behavior/polling.ts:321-350 | However the run goes on, the completion of an interrupted request changes no controller |
| PollingRuns.AbortedWhileQueuedNeverRuns | apps/dashboard/src/lib/behavior/polling.ts:79-86 | A task aborted while queued is rejected at once and never runs, whatever follows |
| PollingRuns.SettlesOnce | apps/dashboard/src/lib/behavior/polling.ts:65-118 | The outcome of a task never changes once it has settled, and its continuation runs at most once |
| PollingRuns.StartsInOrder | apps/dashboard/src/lib/behavior/polling.ts:97-103 | Of two queued tasks the earlier one leaves the queue first, over every run, unless the later is aborted |
| PollingRuns.WaitsAtMost | apps/dashboard/src/lib/behavior/polling.ts:97-118 | Every slot release moves a waiting task up by one, and nothing ever moves it back |
| PollingRuns.StartsAfterReleases | apps/dashboard/src/lib/behavior/polling.ts:97-118 | A task with `k` others before it has started after `k + 1` slot releases, unless it was aborted |
| PollingProgress.DueIsWork | apps/dashboard/src/lib/behavior/polling.ts:97-118 | Every due host event, whatever its outcome, does one piece of the outstanding work: a fetch settles, a slot is freed, or a continuation runs |
| PollingProgress.DueRunIsWork | apps/dashboard/src/lib/behavior/polling.ts:97-118 | Every run of due events, in any order and with any outcomes, has as many events as it does work, and so comes to an end |
| PollingProgress.PollingEnds | apps/dashboard/src/lib/behavior/polling.ts:303-351 | From every reachable state, and for every schedule: when no event is due any more, no controller is polling |
| PollingProgress.PollReturns | apps/dashboard/src/lib/behavior/polling.ts:303-351 | Some schedule brings a given polling controller back to waiting within two events per queued task and two more |
| PollingScheduling.EffectIsMove | apps/dashboard/src/lib/behavior/polling.ts:65-118 | Each call and event has its effect on the scheduler for a task of any caller, with or without a signal, and keeps its invariant |
| PollingScheduling.CallersStartInOrder | apps/dashboard/src/lib/behavior/polling.ts:65-118 | Tasks of any callers start in the order in which they were scheduled |
| PollingScheduling.CallersStartAfterReleases | apps/dashboard/src/lib/behavior/polling.ts:65-118 | A task of any caller with `k` others before it has started after `k + 1` slot releases, unless it was aborted |
| PollingHistory.NextKeepsData | apps/dashboard/src/lib/behavior/polling.ts:229-320 | No other step than an acceptance changes the data, the error, the failure count or the time of the last success |
| PollingHistory.AcceptanceSetsData | apps/dashboard/src/lib/behavior/polling.ts:323-350 | An accepted success replaces the data, clears error and failures and waits for the jittered interval; an accepted failure keeps the data, counts up, and waits 20, 40, or from the third in a row on 60 seconds |
| PollingHistory.SnapshotFollowsLog | apps/dashboard/src/lib/behavior/polling.ts:321-350 | After any run, the data is the value of the latest accepted success, or the initial one, and the failure count is the number of failures since |
| PollingHistory.AcceptedInStartOrder | apps/dashboard/src/lib/behavior/polling.ts:311-350 | Results are accepted in strictly increasing order of their requests' start |
| RateLimiter.RedemptionRateLimiter.FindOldest | apps/dashboard/scripts/http-gateway.ts:229-236 | The loop finds the first of the peers seen least recently |
| RateLimiter.RedemptionRateLimiter.AdmitCall | apps/dashboard/scripts/http-gateway.ts:224-252 | One call: look up or evict and insert, refill, take a token |
| RateLimiter.AdmitKeepsValid | apps/dashboard/scripts/http-gateway.ts:224-252 | The map never holds more than 1024 peers, and its keys and entries agree |
| RateLimiterRuns.EvictedWasSilent | apps/dashboard/scripts/http-gateway.ts:227-238 | If a window saw at most 1024 distinct peers, an evicted peer was silent throughout it |
| RateLimiterRuns.BoundedIsIdeal | apps/dashboard/scripts/http-gateway.ts:224-252 | With at most 1024 distinct peers in every 36 seconds, all answers are those of a limiter that never forgets a peer |
| RateLimiterBounds.ExactLoad | apps/dashboard/scripts/http-gateway.ts:9-11 | A bound on the distinct peers per 36 seconds guarantees ideal answers iff it is at most 1024 |
| RateLimiterBounds.ExactWindow | apps/dashboard/scripts/http-gateway.ts:9-11 | With 1024 peers per window, ideal answers are guaranteed iff the window is at least 36 seconds |
| RateLimiterPeers.AdmissionRate | apps/dashboard/scripts/http-gateway.ts:242-251 | While the map keeps a peer, it is admitted at most six times plus once for every six seconds |
| RateLimiterPeers.DeniedIffOverRate | apps/dashboard/scripts/http-gateway.ts:227-251 | A call is denied iff one more admission would exceed that rate over some stretch in which the map kept the peer |
| RateLimiterDenials.DenialIsForgotten | apps/dashboard/scripts/http-gateway.ts:227-251 | The run without a denied call gives the same later answers to everybody, under any load, as long as no call makes that run forget the denied peer while the real run keeps it |
| RateLimiterDenials.DenialOfKeptPeerIsFree | apps/dashboard/scripts/http-gateway.ts:227-251 | In particular as long as the map of the run without the call keeps the peer; that the map of the real run keeps it is not enough |
| RateLimiterDenialCosts.KeepingIsNotEnough | apps/dashboard/scripts/http-gateway.ts:227-251 | A run in which the real map keeps the denied peer throughout, and the denied call still changes the answer to another peer |
| RateLimiterDenialCosts.SettingApartCosts | apps/dashboard/scripts/http-gateway.ts:227-251 | After the first call that makes the run without the denied call forget the peer while the real run keeps it, some calls at the same time get different answers |
| RateLimiterDenialCosts.DenialIsFreeUnlessSetApart | apps/dashboard/scripts/http-gateway.ts:227-251 | A denied call costs nobody an answer in any future if and only if no future has such a call |
| RateLimiterDenials.AnswersWithoutDenials | apps/dashboard/scripts/http-gateway.ts:249-251 | Any number of denied calls, of one peer or several, can be taken out one after the other on the same condition: the answers to the other calls are the same |
| RateLimiterDenials.AnswersWithoutDenialsUnderLoad | apps/dashboard/scripts/http-gateway.ts:249-251 | Under a load that the map can hold, they can be taken out without any condition |
| RateLimiterPeers.DenialIsFree | apps/dashboard/scripts/http-gateway.ts:227-251 | While the load is one that the map can hold, the same is true even if the denied peer is evicted meanwhile |
| RateLimiterPeers.SilentPeerIsAdmitted | apps/dashboard/scripts/http-gateway.ts:227-251 | A peer that was silent for six seconds is always admitted, whether or not it was evicted, and so after the advertised sixty |
| JsonScanner.SkipWhitespace | apps/dashboard/scripts/launcher.ts:12-14 | The loop stops at the first character that is not white space |
| JsonScanner.ReadString | apps/dashboard/scripts/launcher.ts:22-35 | The loop stops behind the first quote that no backslash escapes |
| JsonScanner.PassValue | apps/dashboard/scripts/launcher.ts:44-63 | The loop over a value stops at the comma or brace of depth zero outside strings, or at the end |
| JsonScanner.RejectDuplicateTopLevelKeys | apps/dashboard/scripts/launcher.ts:9-65 | The index-based scanner terminates on every text with the verdict of its specification |
| JsonScannerProofs.ValuePasses | apps/dashboard/scripts/launcher.ts:44-63 | Every JSON value, at any depth, leaves the scanner outside strings and at the depth where it began |
| JsonScannerProofs.ValueScanLands | apps/dashboard/scripts/launcher.ts:44-63 | Skipping the value of a member ends at the member's own comma, or at the brace of its object |
| JsonScannerProofs.StringScanEnds | apps/dashboard/scripts/launcher.ts:22-35 | Reading a name ends right behind the name's own closing quote |
| JsonScannerProofs.ParsesSpelledCharacters | apps/dashboard/scripts/launcher.ts:36 | Decoding a string token undoes its spelling, for every choice of escapes |
| JsonScannerProofs.ParsesOnlySpellings | apps/dashboard/scripts/launcher.ts:36 | Only spellings of strings are decoded; all else is a syntax error |
| JsonScannerProofs.ScanJudgesTopLevelKeys | apps/dashboard/scripts/launcher.ts:15-65 | On every JSON text the scanner reads exactly the top-level names, in order |
| JsonScannerProofs.RejectsExactlyDuplicates | apps/dashboard/scripts/launcher.ts:36-39 | On every JSON text it throws iff two top-level names decode to the same string, and names the first repeat |
| Ipv4.Ipv4FromOctets | apps/dashboard/src/lib/network/ipv4.ts:31-38 | The loop gives the number with these octets, or a range error iff one of them is no octet |
| Ipv4.OctetsRoundTrip | apps/dashboard/src/lib/network/ipv4.ts:31-48 | Four octets and 32-bit values convert into each other without loss, both ways |
| Ipv4.PrefixMaskValue | apps/dashboard/src/lib/network/ipv4.ts:76-80 | The mask of shifts and conjunctions is `2^32 - 2^(32-p)` |
| Ipv4.NetworkIsMultiple | apps/dashboard/src/lib/network/ipv4.ts:82-85 | Masking an address subtracts its remainder by the block size |
| Ipv4.BroadcastIsLast | apps/dashboard/src/lib/network/ipv4.ts:87-89 | The broadcast address is the network plus the block size minus one |
| Ipv4.ContainedIffSameNetwork | apps/dashboard/src/lib/network/ipv4.ts:91-94 | An address lies between network and broadcast iff it has the same network |
| Ipv4.OctetPrefixInterval | apps/dashboard/src/lib/network/ipv4.ts:121-132 | The loop gives the interval of an octet prefix, or a range error iff it is too long or holds a non-octet |
| Ipv4.IntervalIsPrefix | apps/dashboard/src/lib/network/ipv4.ts:121-132 | The interval holds exactly the addresses that start with the octets |
| Ipv4Text.ParseIpv4Text | apps/dashboard/src/lib/network/ipv4.ts:54-66 | The loop stops at the first part that is no canonical octet, with the error of that part |
| Ipv4Text.ParseOfFormat | apps/dashboard/src/lib/network/ipv4.ts:50-66 | Every 32-bit value is parsed back from its text |
| Ipv4Text.FormatOfParse | apps/dashboard/src/lib/network/ipv4.ts:50-66 | Every accepted text is the text of its value, so the notation is unique |
| Ipv4Text.ParseOfFormatCidr | apps/dashboard/src/lib/network/ipv4.ts:96-119 | Every canonical address and prefix length is parsed back from its text, with its network and broadcast |
| Ipv4Text.FormatOfParseCidr | apps/dashboard/src/lib/network/ipv4.ts:96-119 | Every accepted CIDR text is canonical and equals the formatted pair |
| Ipv4Acceptance.AcceptsExactlyAddresses | apps/dashboard/src/lib/network/ipv4.ts:54-66 | Accepted are exactly the texts of 32-bit values |
| Ipv4Acceptance.AcceptsExactlyBlocks | apps/dashboard/src/lib/network/ipv4.ts:96-112 | Accepted are exactly the texts of canonical blocks |
| Ipv4Acceptance.ReadsFromTheLeft | apps/dashboard/src/lib/network/ipv4.ts:31-52 | The text names the four octets from the most significant one on |
| Ipv4Acceptance.ParseErrors | apps/dashboard/src/lib/network/ipv4.ts:54-66 | Other than four parts is a type error; otherwise the first part that is no octet decides: a range error for too large a number, else a type error |
| Ipv4Acceptance.BlockErrors | apps/dashboard/src/lib/network/ipv4.ts:96-112 | Anything but two texts around one slash is a type error; then the address text, the form of the length, its size and host bits decide in turn |
| NodeAddresses.LowestMatching | apps/dashboard/src/lib/network/segmented-network.ts:254-264 | The loop finds the first address of the interval, within the block, that is not blocked |
| NodeAddresses.SearchIsShort | apps/dashboard/src/lib/network/segmented-network.ts:260-263 | The loop stops after at most as many steps as there are blocked addresses, however large the block |
| NodeAddresses.CreateNodeAddressAvailability | apps/dashboard/src/lib/network/segmented-network.ts:271-302 | The loop over the nodes builds the availability that `AvailableIsUnclaimed` describes, or fails with the error of the first malformed address |
| NodeAddressChoices.CreationSucceedsIff | apps/dashboard/src/lib/network/segmented-network.ts:276-302 | The factory succeeds iff the first VNR of the name has a canonical range of length 1 to 30 and a Master strictly inside, and all other nodes have addresses; and which error comes otherwise |
| NodeAddressProofs.AvailableIsUnclaimed | apps/dashboard/src/lib/network/segmented-network.ts:276-301 | In every availability the factory makes, an address is available iff it is a host address of the VNR that is neither the Master's nor that of another node |
| NodeAddressProofs.TakenIsExact | apps/dashboard/src/lib/network/segmented-network.ts:287-291 | Exactly the addresses of the other nodes that lie in the block are added, and it fails iff one of their texts is no address |
| NodeAddressProofs.CreatedIsFactoryBuilt | apps/dashboard/src/lib/network/segmented-network.ts:279-301 | Every availability the factory makes blocks network and broadcast, and nothing outside its block |
| NodeAddressProofs.ProposalIsLeastUnclaimed | apps/dashboard/src/lib/network/segmented-network.ts:331-342 | The address proposed for a node is the least that nobody has, and there is none iff all are claimed |
| NodeAddressProofs.LowestIsLeast | apps/dashboard/src/lib/network/segmented-network.ts:250-264 | The result is the least available address with the given first octets, and null iff there is none |
| NodeAddressProofs.OptionsAreExact | apps/dashboard/src/lib/network/segmented-network.ts:266-268 | The options are, ascending, exactly the next octets that some available address has |
| NodeAddressProofs.NotExhausted | apps/dashboard/src/lib/network/segmented-network.ts:286-290 | With fewer than `2^(32-p) - 3` other nodes there is always a free address |
| NodeAddressProofs.NormalisingTwice | apps/dashboard/src/lib/network/segmented-network.ts:331-342 | Normalising a selection's own value gives the same selection |
| NodeAddressChoices.SelectionMeaning | apps/dashboard/src/lib/network/segmented-network.ts:304-342 | A selection shows the preferred address if that is available, else the least available one, and is exhausted iff there is none |
| NodeAddressChoices.OfferedOctetCanBeChosen | apps/dashboard/src/lib/network/segmented-network.ts:344-358 | Exactly the octets on offer can be chosen; anything else is a range error |
| NodeAddressChoices.ExhaustedOffersNothing | apps/dashboard/src/lib/network/segmented-network.ts:308-316 | An exhausted selection offers nothing, and every choice is a range error |
| NodeAddressProofs.EveryFreeAddressIsReachable | apps/dashboard/src/lib/network/segmented-network.ts:344-358 | From any selection that is not exhausted, choosing the octets of any free address in order succeeds and ends there |
| ConflictRecovery.NextAfterConflict | apps/dashboard/src/components/nodes/nodes-workspace.tsx:158-179 | The descending walk returns the least available address other than the rejected one, or null iff there is none |
| ConflictRecovery.NextAddressAfterConflict | apps/dashboard/src/components/nodes/nodes-workspace.tsx:143-179 | The same for the whole function, with the factory's errors; what it returns belongs neither to the Master nor to a node, and is not the rejected address |
| ConflictRecovery.PhantomPathIsNext | apps/dashboard/src/components/nodes/node-detail-workspace.tsx:196-211 | The lowest address beside a further node at the rejected address is that address too |
| ConflictRecovery.NextIsUnique | apps/dashboard/src/components/nodes/nodes-workspace.tsx:158-179 | There is only one such answer |
| ConflictRecovery.RecoveryPathsAgree | apps/dashboard/src/components/nodes/node-detail-workspace.tsx:196-211 | For the same current node, or none, the two recovery paths propose the same address (the create page passes no current node, the edit page the node it edits) |
| CidrSelections.SelectCidrOctet | apps/dashboard/src/lib/network/segmented-network.ts:193-210 | The copy-and-overwrite loop keeps the octets before, sets the chosen one and zeroes those behind, with the source's errors |
| CidrChoices.OptionsAreExact | apps/dashboard/src/lib/network/segmented-network.ts:94-129 | Offered for an octet are, once the octets before it are chosen, exactly the values that fit the prefix; retained is the value it has when that is not among them |
| CidrChoices.OfferedCanBeChosen | apps/dashboard/src/lib/network/segmented-network.ts:193-204 | Exactly the values on offer can be chosen; anything else is a range error |
| CidrChoices.ChoiceSetsOctets | apps/dashboard/src/lib/network/segmented-network.ts:206-209 | A choice keeps the octets before it and the prefix length, and sets those behind it to zero |
| CidrChoices.PrefixCanBeChosen | apps/dashboard/src/lib/network/segmented-network.ts:212-221 | A prefix length can be chosen iff it is from 1 to 30 for a VNR or to 32 for a route, and keeps the octets |
| CidrChoices.DerivedValue | apps/dashboard/src/lib/network/segmented-network.ts:160-169 | The value of a selection is the CIDR text of its octets and prefix length |
| CidrChoices.EmptySelectionIs | apps/dashboard/src/lib/network/segmented-network.ts:172-177 | It starts with no octet and, for a VNR, length 24 |
| CidrChoices.ParsedSelectionIs | apps/dashboard/src/lib/network/segmented-network.ts:179-183 | A text is accepted iff it is a canonical block of an allowed length, and becomes the value; otherwise the parser's error or a range error comes |
| CidrProofs.DivisibleByOctets | apps/dashboard/src/lib/network/segmented-network.ts:94-101 | A number ends in `k` zero bits iff each octet ends in those of them that fall into it |
| CidrProofs.OptionsAgreeWithMask | apps/dashboard/src/lib/network/segmented-network.ts:94-170 | A complete draft equals its 32-bit network iff every octet is among the values offered for it |
| CidrProofs.ValidityMeaning | apps/dashboard/src/lib/network/segmented-network.ts:113-170 | Canonical, host_bits_set and incomplete say exactly what the columns of options show; host_bits_set iff a column retains an invalid value |
| CidrProofs.StartsWhole | apps/dashboard/src/lib/network/segmented-network.ts:172-183 | Empty and parsed selections have either no octet or all four |
| CidrProofs.EditsKeepWhole | apps/dashboard/src/lib/network/segmented-network.ts:193-221 | Any sequence of edits, failed ones included, keeps it so |
| CidrProofs.ChoosingOctetIsCanonical | apps/dashboard/src/lib/network/segmented-network.ts:193-210 | Choosing an octet gives a canonical block iff a prefix is set and the octets before it were canonical |
| CidrProofs.LengtheningKeepsCanonical | apps/dashboard/src/lib/network/segmented-network.ts:212-221 | A canonical selection stays canonical under every longer prefix |
| CidrProofs.CanonicalReparses | apps/dashboard/src/lib/network/segmented-network.ts:179-183 | The text of a canonical selection parses back to that selection |
| Ordering.SortForgetsOrder | apps/dashboard/src/lib/behavior/topology.ts:53-67 | A stable sort by keys that tell elements apart forgets the order of its input |
| TopologyLayout.LatestRuntimeByNode | apps/dashboard/src/lib/behavior/topology.ts:81-90 | The loop computes the fold over the entries that `LatestRuntimeKeepsFirst` describes |
| TopologyBuilder.Drawing.PlaceRoutes | apps/dashboard/src/lib/behavior/topology.ts:132-158 | One row per route, or one empty row; the node's height is their midpoint |
| TopologyBuilder.Drawing.PlaceVnr | apps/dashboard/src/lib/behavior/topology.ts:123-182 | The nodes of a VNR follow each other, and the VNR is placed at their midpoint |
| TopologyBuilder.CreateTopologyModel | apps/dashboard/src/lib/behavior/topology.ts:97-253 | The imperative construction, with its row counter and growing lists, computes the model |
| TopologyFields.ModelIsInOrder | apps/dashboard/src/lib/behavior/topology.ts:53-67 | VNRs stand in the order of name and range, nodes of name and identifier, routes of prefix and identifier, texts being compared where they first differ |
| TopologyFields.ModelKeepsTime | apps/dashboard/src/lib/behavior/topology.ts:247-248 | The model carries the generation and the time of its topology |
| TopologyFields.ListsAreSorted | apps/dashboard/src/lib/behavior/topology.ts:244-252 | Entities and edges are sorted by key, orphans by identifier |
| TopologyFields.EntitiesAreLabelled | apps/dashboard/src/lib/behavior/topology.ts:50-51 | Each kind of entity has its own form of key, its column and its label |
| TopologyFields.EntitiesHangBelow | apps/dashboard/src/lib/behavior/topology.ts:123-231 | Each entity's parent key is that of the record it belongs to, and absent iff that record is missing |
| TopologyFields.EdgesAreLabelled | apps/dashboard/src/lib/behavior/topology.ts:150-181 | Each edge is named after parent and child; routes are owned, the others contained |
| TopologyFields.LeavesStandInRows | apps/dashboard/src/lib/behavior/topology.ts:121-231 | Leaf number `i` of the drawing, be it a route, a node without routes or a VNR without nodes, stands at height `72 * i` |
| TopologyProofs.EveryRecordOnce | apps/dashboard/src/lib/behavior/topology.ts:123-242 | Every VNR, node and route is drawn exactly once, with its own key, label, column and parent; nothing else is drawn but one Master |
| TopologyProofs.EdgesAreParentLinks | apps/dashboard/src/lib/behavior/topology.ts:150-181 | The edges are exactly the links to parents, each once |
| TopologyProofs.ParentsAreDrawn | apps/dashboard/src/lib/behavior/topology.ts:123-242 | Every parent key is the key of a drawn entity |
| TopologyGroups.OrphansAreListed | apps/dashboard/src/lib/behavior/topology.ts:104-105 | The orphan lists are sorted permutations of the identifiers of the records whose parent is missing |
| TopologyGroups.GroupsAreExact | apps/dashboard/src/lib/behavior/topology.ts:107-116 | The tree is sorted and lists every VNR once, under it a permutation of its nodes, and with each of these a permutation of its routes and its latest runtime |
| TopologyReadability.ModelIsStacked | apps/dashboard/src/lib/behavior/topology.ts:123-242 | Entities of one column are at least 72 apart |
| TopologyReadability.BoxesDoNotOverlap | apps/dashboard/src/components/topology/topology-workspace.tsx:50-56 | No point lies in two boxes |
| TopologyReadability.ChildrenFollowParents | apps/dashboard/src/lib/behavior/topology.ts:123-242 | Of two parents in one column, all children of the upper one lie above all children of the lower one |
| TopologyCentring.ParentsAreCentred | apps/dashboard/src/lib/behavior/topology.ts:92-95 | Every entity with children lies halfway between its topmost and its lowest child |
| TopologyEdges.EdgeMeansChild | apps/dashboard/src/components/topology/topology-workspace.tsx:177-184 | An edge joins two entities iff they are parent and child |
| TopologyEdges.EdgesDoNotCross | apps/dashboard/src/components/topology/topology-workspace.tsx:177-184 | The curves of two edges between the same columns have no point in common, unless they start at the same parent, and then only their start |
| TopologyRuntime.LatestRuntimeKeepsFirst | apps/dashboard/src/lib/behavior/topology.ts:69-90 | The runtime kept for a node is the first of its entries with the greatest tie-break text |
| TopologyFields.TieBreakerOrder | apps/dashboard/src/lib/behavior/topology.ts:69-79 | Of two runtime entries the later observed is greater; at one time liveness, session state, traffic state, endpoint and authentication times decide in turn |
| TopologyDeterminism.ModelForgetsOrder | apps/dashboard/src/lib/behavior/topology.ts:97-253 | Any permutation of the inputs gives the same model, up to the choice between runtime entries with equal tie-break texts |
| TopologyDeterminism.ModelIsDetermined | apps/dashboard/src/lib/behavior/topology.ts:97-253 | When no tie shows, any permutation of the inputs gives the very same model |
| TopologyDeterminism.TieShows | apps/dashboard/src/lib/behavior/topology.ts:69-90 | When a tie shows, two permutations of the runtime entries give different models |
| TopologyDeterminism.OrderIsForgottenUnlessTied | apps/dashboard/src/lib/behavior/topology.ts:69-90 | The order of the inputs does not matter if and only if no two different entries of a node in the tree share the greatest tie-break text of that node |
| TopologyDeterminism.TiesAreTold | apps/dashboard/src/lib/behavior/topology.ts:77 | Legal entries can tie: an absent endpoint and an empty one join to the same text |
| TopologyFilter.LatestObserved | apps/dashboard/src/components/topology/topology-workspace.tsx:58-65 | The loop computes the fold over the entries that `ObservedKeepsFirst` describes |
| TopologyRuntime.ObservedKeepsFirst | apps/dashboard/src/components/topology/topology-workspace.tsx:58-65 | The entry kept for a node is the first of its entries with the latest observation time |
| TopologyFilter.RouteByNode | apps/dashboard/src/components/topology/topology-workspace.tsx:70-75 | The index holds for every node exactly its routes, in order |
| TopologyFilter.FilterTopology | apps/dashboard/src/components/topology/topology-workspace.tsx:67-103 | The filter with its index equals the filter by direct search |
| TopologyFilterMeaning.FiltersKeepExactly | apps/dashboard/src/components/topology/topology-workspace.tsx:67-103 | Said of the records alone: which nodes pass the choice of VNR, the liveness of the node's first latest entry, and the query in lower case; which VNRs, routes and runtime entries stay with them |
| TopologyFilterProofs.FilteredHasNoOrphans | apps/dashboard/src/components/topology/topology-workspace.tsx:86-101 | The model of a filtered topology has no orphans, for every topology and all criteria |
| TopologyFilterProofs.ShownNodesAreKept | apps/dashboard/src/components/topology/topology-workspace.tsx:77-101 | Exactly the nodes that pass and have a VNR are kept, with their VNRs and routes; the tests of the VNR never cost a passing node |
| TopologyFilterProofs.FilteringTwice | apps/dashboard/src/components/topology/topology-workspace.tsx:67-103 | Filtering again by the same criteria changes nothing |
| TopologyFilterProofs.NoCriteriaKeepsClosed | apps/dashboard/src/components/topology/topology-workspace.tsx:67-103 | Without criteria the filter changes nothing iff every VNR has a node and no node, route or runtime entry lacks its parent |
| TopologyRuntime.FilterSeesWhatIsShown | apps/dashboard/src/components/topology/topology-workspace.tsx:58-65 | The entry that the filters test and the entry that the model shows are of one time, and the same entry iff no entry of that node and time has a greater tie-break text than the one tested |

## Left out

- React components, dialogs, hooks, styling and `packages/ui`: user interface. Of the `.tsx` files only the plain
  functions, the box sizes and the path of an edge are modelled.
- HTTP forwarding, header rewriting, asset serving, process start-up, TLS and the smoke tests: plumbing around `fetch`
  and the file system.
- `mutation.ts` builds the headers of one request, `capabilities.ts` and `theme.ts` look up tables of roles and modes,
  `node-bootstrap.ts` and `packages/config` check the fields of one record against patterns, and the release checks and
  contract scripts compare generated files.
- The Zig server is not part of this model.
- PollingSystem: a snapshot listener that calls back into its controller, a `run` that throws instead of returning a
  promise, and the listeners of `subscribe` are not modelled.
- PollingScheduling: every task has an abort signal of its own, or none; one signal shared by several tasks is not modelled.
- PollingSystem: a timer may fire at any time, also before it is due; every real schedule is one of these runs.
- FailureBackoffMilliseconds: takes an integer, since the callers count failures; the case of a non-finite argument is left out.
- RedemptionRateLimiter: the clock never goes back where a run is called `Monotone`, as `performance.now` promises; the
  peers' mutable objects are values of the map.
- Floating-point rounding in tokens, jitter, delays and heights is left out; `Math.round` is modelled on reals.
- JsonScanner: the error that a bad string token raises is one verdict, without its message; the later parse of the
  whole text is represented by the grammar.
- Ipv4.NetworkIsMultiple: the range checks of `requireIpv4Value` and `requirePrefixLength` are the types `Address` and
  `PrefixLength`; the parsers, `Ipv4FromOctets`, `OctetPrefixInterval` and the selections model their errors.
- Thrown: an exception is its class, without its message.
- CidrSelections: `createCidrSelectionFromDraft` and an explicit initial prefix length of `createEmptyCidrSelection` are
  left out; both only call the derivation that is modelled.
- TopologyProofs: VNR names, node identifiers and route identifiers are assumed unique where a member requires
  `UniqueInputs`, as the API guarantees.
- Ordering.SortForgetsOrder: text is compared by characters of the model, JavaScript compares UTF-16 code units; every
  result holds for any total order of characters. `Array.sort` is a stable sort as a function of its input.
- TopologyFilter.FilterTopology: trimming and lower-casing the query happen before the call, and lower-casing of the
  records is a parameter.
- TopologyEdges: edges between different pairs of columns, and edges that pass through boxes of other columns, are not compared.

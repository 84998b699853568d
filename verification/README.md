# A verified model of zidaBot

zidaBot keeps live copies of exchange order books, relays them to a central brain, looks for
cross-venue crosses there, and dispatches or simulates orders. This project models the parts whose
correctness is decided by their own code and proves what they promise over all inputs and all runs.

Every stateful component comes in two forms. The specification is a function on values (`OnIncrement`,
`Hand`, `OnEvent`, `ScanAll`, `OnSignal`, `Turn`, `After`, ...). The class or looping method with the
source's fields, branches and loops is proved to compute exactly that function. The theorems are about
whole runs of the specification, so they hold of the classes.

| file | subject |
|---|---|
| `OrderBook.dfy`, `BoundedBook.dfy` | the depth-bounded sorted book, and its relation to an unlimited book and to the plain map of the writes |
| `Controller.dfy`, `ControllerLaws.dfy` | the snapshot / bridge / steady-state protocol under arbitrary messages |
| `Replica.dfy`, `Progress.dfy` | the exchange as a history of absolute level writes; the local book means the exchange's book, and keeps up with it |
| `FeedHandler.dfy`, `FeedLaws.dfy`, `FeedFlow.dfy`, `FeedStatus.dfy` | the feed handler as a step machine over frames, replies, closes and timers; its states; what arrives against what is handed over; what its statuses tell |
| `Brain.dfy`, `Follower.dfy`, `Checkpoints.dfy` | the brain following a feed's published stream; checkpoints |
| `Detector.dfy`, `DetectorMeaning.dfy`, `DetectorLaws.dfy` | the cross scan, its median filter, rate limiter and standby flag |
| `Exec.dfy`, `ExecOrders.dfy` | guards E4, E1, E2, E3, the immediate strategy, orders in flight; which orders a run sends |
| `Streams.dfy`, `MergeLaws.dfy` | buffered file readers and the k-way merge |
| `Simulator.dfy`, `SimLanes.dfy`, `SimLaws.dfy`, `SimWindows.dfy`, `SimBooks.dfy`, `SimResults.dfy`, `SimPeaks.dfy`, `SimFills.dfy` | the multi-latency backtest |
| `Frames.dfy` | WebSocket frames and messages (sections 5.2 to 5.4 of RFC 6455) |
| `Decimals.dfy` | fixed-point decimal parsing |
| `Basics.dfy` | `Option` and one fact about sets |

Modelling choices. Ticks, lots and sequence numbers are unbounded integers, doubles are reals, clocks
are inputs. A level is its tick and lot. A parsed message is a record together with whether parsing it
succeeded. An exchange history is a sequence of absolute level writes: a snapshot at `s` is the map
after the first `s` writes, an incremental `[f..l]` carries the last lot per touched price. The
fields `dispatched`, `submitted`, `seen` and the execution `log` are history variables that no
decision reads. What the feed handler should have received is computed from its inputs alone.

Where the code and its comments disagree, or a natural promise fails, the model follows the code and
says exactly when the promise holds:

- `parseDecimalToScaled` is documented to throw on malformed input but accepts trailing junk, a lone
  sign or point, and a second minus (`Decimals.JunkAccepted`: `--5` reads as +5, and `--5.2` as +4.8).
  `Decimals.AcceptsExactly` gives the accepted strings character by character;
  `Decimals.ReadableExactly` gives those that are read as the number they spell.
- Guard E1 charges the price of one unit while an order costs `target_qty` units.
  `Exec.UnitGuardExact` gives the exact condition under which some run with one order at a time breaks
  the position limit, and `Exec.BreakingRunBreaks` is that run; for at most one unit per order none does.
- The brain tolerates gaps, so between an incremental beyond a gap and the status event that follows
  it a usable venue can show a level the exchange has withdrawn. `Follower.GapExposesPhantom` is such
  a run of the feed; `Follower.BrainNeverPhantom` and `Replica.AppliedExactly` say precisely when it happens.
- A removal from a full book does not bring back the level that was cut off earlier
  (`BoundedBook.LossIsReal`). `BoundedBook.ExactThroughout`: the book is the exact top N at every moment
  if and only if no such removal happened. `BoundedBook.TopAgrees` bounds the damage by their number;
  a later level can undo it (`BoundedBook.LossCanHeal`).
- Two input files of one venue, such as a plain and a compressed one, can lose rows in the merge
  (`MergeLaws.SameVenueLosesRows`). `MergeLaws.MergeComplete`: all rows are delivered if and only if
  every file but the last of its venue has at most one row.

## Model

| member | source | states |
|---|---|---|
| `OrderBooks.OrderBook.Update` | common/include/orderbook/OrderBook.hpp:65-106 | in-place update of one side computes `UpdateSide` and leaves the other side alone |
| `OrderBooks.OrderBook.Remove` | common/include/orderbook/OrderBook.hpp:113-133 | in-place removal of a tick computes `RemoveSide`; an absent tick changes nothing |
| `OrderBooks.OrderBook.Validate` | common/include/orderbook/OrderBook.hpp:138-163 | true exactly for a book whose sides are within depth, strictly sorted and without empty levels |
| `OrderBooks.ValidateVector` | common/include/orderbook/OrderBook.hpp:145-160 | the neighbour-by-neighbour loop decides strict sortedness and the absence of empty levels |
| `OrderBooks.UpdateSideContents` | common/include/orderbook/OrderBook.hpp:65-133 | an update keeps the side valid and invents no level; with room its levels are exactly the old ones off that tick plus the new one |
| `OrderBooks.UpdateFirstValid` | common/include/orderbook/OrderBook.hpp:65-133 | any run of updates keeps a side valid |
| `BoundedBook.UnlimitedMeansWrites` | common/include/orderbook/OrderBook.hpp:65-133 | a book that never runs out of room is exactly the map from tick to lot described by the writes |
| `BoundedBook.TopAgrees` | common/include/orderbook/OrderBook.hpp:65-133 | after any run since a clear the depth-N book is valid, a sub-map of the writes, and agrees with the unlimited book on the best N - k levels, k counting removals from a book that hides a level |
| `BoundedBook.NoLossIsTop` | common/include/orderbook/OrderBook.hpp:65-133 | with no such removal it is exactly the best N levels; `ExactThroughout` is the converse over runs |
| `BoundedBook.StepExact` | common/include/orderbook/OrderBook.hpp:65-133 | from a book that is the top N, one update leaves it the top N if and only if it is not a removal from a book that hides a level |
| `BoundedBook.ExactThroughout` | common/include/orderbook/OrderBook.hpp:65-133 | the book is the top N after every prefix of a run if and only if the run has no such removal |
| `BoundedBook.LossCanHeal` | common/include/orderbook/OrderBook.hpp:95-133 | a run with one such removal whose last book is the top N again |
| `BoundedBook.LossIsReal` | common/include/orderbook/OrderBook.hpp:95-133 | a run in which the hidden level is not recovered; the exact condition is `StepExact` and `ExactThroughout` |
| `BoundedBook.UpdateKeepsSubMap` | common/include/orderbook/OrderBook.hpp:65-133 | an update applied to book and map keeps the book a sub-map, at any depth |
| `BoundedBook.UpdateKeepsMeaning` | common/include/orderbook/OrderBook.hpp:65-133 | with room for the level it keeps the book equal to the map |
| `Controllers.BaselineKeeps` | common/src/orderbook/OrderBookController.cpp:50-69 | a baseline holds the snapshot's non-empty levels, no more and no less |
| `Controllers.OrderBookController.ResetBook` | common/include/orderbook/OrderBookController.hpp:102-107 | empty book, waiting for a snapshot, sequence numbers 0 |
| `Controllers.OrderBookController.HandleSnapshot` | common/src/orderbook/OrderBookController.cpp:43-97 | new state and answer are those of `OnSnapshot`: rebuilt book, sequence, target state by baseline kind, checksum rejection |
| `Controllers.OrderBookController.ApplyIncrementUpdate` | common/src/orderbook/OrderBookController.cpp:142-153 | all bid then all ask levels reach the book and the sequence moves to the message's end |
| `Controllers.OrderBookController.RunGuards` | common/src/orderbook/OrderBookController.cpp:203-238 | crossed-book, periodic validation and checksum guards, in order, on the applied book |
| `Controllers.OrderBookController.HandleIncrement` | common/src/orderbook/OrderBookController.cpp:99-241 | new state and answer are those of `OnIncrement` in every branch of bridge and steady state |
| `ControllerLaws.StepInv` | common/src/orderbook/OrderBookController.cpp:28-241 | any message keeps the book valid and expected = last + 1 once a baseline is loaded; NeedResync always leaves an empty waiting book |
| `ControllerLaws.InvAlways` | common/src/orderbook/OrderBookController.cpp:28-241 | the same in every state reachable by any messages |
| `ControllerLaws.AcceptedIncrement` | common/src/orderbook/OrderBookController.cpp:99-241 | an increment answered None changes nothing when there is no baseline or 0 < lastSeq < expectedSeq; any other reaches the book, moves the sequence to its own lastSeq past the old one (within reach unless gaps are allowed; unsequenced ones need a checksum function), and leaves a synced book in which, if both best prices are positive, every bid is below every ask |
| `ControllerLaws.UnchangedExactly` | common/src/orderbook/OrderBookController.cpp:113-201 | on a loaded controller a sequenced increment answered None leaves the state unchanged if and only if it ends at or before the applied sequence; otherwise the controller is synced at the message's lastSeq |
| `ControllerLaws.ResyncExactly` | common/src/orderbook/OrderBookController.cpp:99-241 | the exact condition for giving up on an increment, on its numbers and the book it would make: a gap, no sequence and no checksum function, a crossed top, a missing or wrong checksum; never without a baseline or on old news |
| `ControllerLaws.SnapshotRefused` | common/src/orderbook/OrderBookController.cpp:77-89 | a snapshot is refused if and only if it carries a checksum, one is enforced, and the loaded book fails it |
| `ControllerLaws.AcceptedSnapshot` | common/src/orderbook/OrderBookController.cpp:43-97 | an accepted snapshot puts the controller at its sequence, waiting for the bridge exactly when REST-anchored and synced exactly when authoritative |
| `ControllerLaws.SyncedMeansBridged` | common/src/orderbook/OrderBookController.cpp:91-153 | a controller that waited for its bridge and had no other baseline is synced only after an increment was applied since |
| `ControllerLaws.ValidationNeverFires` | common/src/orderbook/OrderBookController.cpp:214-223 | switching periodic validation off changes no answer and nothing but its counter |
| `ControllerLaws.NoHole` | common/src/orderbook/OrderBookController.cpp:113-201 | with gaps disallowed, every sequence number between the loaded baseline and the applied sequence was covered by an increment applied since that baseline |
| `Replica.IncrementOverlay` | common/src/orderbook/OrderBookController.cpp:137-145 | an authentic incremental over the exchange's book at any sequence it covers gives the exchange's book at its end |
| `Replica.AppliedMirrors` | common/src/orderbook/OrderBookController.cpp:137-145 | applying an authentic incremental in reach keeps the local book part of the exchange's book at the new sequence |
| `Replica.AppliedExactly` | common/src/orderbook/OrderBookController.cpp:187-201 | applying any authentic incremental, gaps tolerated, keeps the local book part of the exchange's if and only if every level it does not name still rests there just before its first write |
| `Replica.SnapshotEquals` | common/src/orderbook/OrderBookController.cpp:43-97 | a complete snapshot whose sides fit the depth loads as exactly the exchange's book at its sequence |
| `Replica.NeverPhantom` | common/src/orderbook/OrderBookController.cpp:43-246 | for any mix of authentic messages, late, duplicated, overlapping, lost or reordered, and any depth, no level is shown that the exchange lacks at the applied sequence |
| `Replica.ReplicaExact` | common/src/orderbook/OrderBookController.cpp:43-246 | with complete snapshots and room for each message (the snapshot's book; the book an incremental meets plus the ticks it writes) the book is exactly the exchange's book at the applied sequence whenever bridging or synced |
| `Replica.MirrorNotCrossed` | common/src/orderbook/OrderBookController.cpp:203-212 | on an uncrossed exchange the crossed-book guard cannot fire |
| `Replica.ResyncOnlyOnGap` | common/src/orderbook/OrderBookController.cpp:113-238 | on an uncrossed exchange without checksum enforcement the controller gives up on an authentic increment exactly when it starts beyond the expected sequence |
| `Progress.Advances` | common/src/orderbook/OrderBookController.cpp:113-201 | an authentic increment that covers the sequence due is accepted and takes a mirroring controller to its end, synced |
| `Progress.KeepsUp` | common/src/orderbook/OrderBookController.cpp:99-241 | over any run of such increments the controller is at the end of each message after it |
| `Progress.NeverRefuses` | common/src/orderbook/OrderBookController.cpp:99-241 | and none of them makes it resync |
| `Progress.FollowsExchange` | common/src/orderbook/OrderBookController.cpp:43-241 | on an uncrossed exchange, gaps and checksums off: a complete snapshot and then authentic increments that each cover the sequence due (overlaps allowed) are all accepted, and with room for each message both sides are the exchange's book at that message's lastSeq |
| `FeedHandlers.LevelsFromBook` | feed/src/postprocess/WsPublishSink.cpp:111-124 | the publishing loop yields the top levels up to the first empty one |
| `FeedHandlers.GenericFeedHandler.EnterState` | feed/src/md/GenericFeedHandler.cpp:63-91 | a state change publishes its status, staying put publishes nothing |
| `FeedHandlers.GenericFeedHandler.MaybePersistBook` | feed/src/md/GenericFeedHandler.cpp:852-881 | a synced book is published as a checkpoint every configured number of updates |
| `FeedHandlers.GenericFeedHandler.RestartSync` | feed/src/md/GenericFeedHandler.cpp:649-679 | buffer and book cleared, reconnecting, timers of the old generation invalidated |
| `FeedHandlers.GenericFeedHandler.DrainBufferedIncrementals` | feed/src/md/GenericFeedHandler.cpp:456-484 | the drain loop computes `Drain`: front to back, unparsable frames skipped, stop on a restart |
| `FeedHandlers.GenericFeedHandler.HandleRestBody` | feed/src/md/GenericFeedHandler.cpp:393-454 | a REST snapshot (or a bad one) takes the handler to the state given by `OnRestBody` |
| `FeedHandlers.GenericFeedHandler.HandleWsMessage` | feed/src/md/GenericFeedHandler.cpp:486-647 | a frame in each handler state takes it to the state given by `OnWsMessage` |
| `FeedHandlers.GenericFeedHandler.HandleInput` | feed/src/md/GenericFeedHandler.cpp:226-811 | the same for every kind of input: open, frame, close, replies, timers, watchdog |
| `FeedLaws.HandKeeps` | feed/src/md/GenericFeedHandler.cpp:456-484 | handing one incremental over keeps baseline and sync state, or ends in a cleared restart |
| `FeedLaws.DrainKeeps` | feed/src/md/GenericFeedHandler.cpp:456-484 | draining empties the buffer and keeps the baseline, or ends in a restart |
| `FeedLaws.StepKeeps` | feed/src/md/GenericFeedHandler.cpp:226-811 | one input of any kind keeps the state invariant |
| `FeedLaws.FeedInvAlways` | feed/src/md/GenericFeedHandler.cpp:393-679 | over every interleaving: SYNCED implies a synced controller, WAIT_BRIDGE a loaded baseline still without its bridge, and the buffer stays within its cap and is empty once a baseline is in use |
| `FeedFlow.HandFlow` | feed/src/md/GenericFeedHandler.cpp:627-635 | one incremental handed over is published after those before it, or the sync starts over exactly when the controller refuses it |
| `FeedFlow.DrainFlow` | feed/src/md/GenericFeedHandler.cpp:456-484 | the drain hands the whole buffer over in order, or starts over exactly when the controller refuses some of it |
| `FeedFlow.StepFlow` | feed/src/md/GenericFeedHandler.cpp:226-811 | any input passes its arrival on behind what was there, or starts over exactly when it is a reason to |
| `FeedFlow.RestartsExactly` | feed/src/md/GenericFeedHandler.cpp:393-811 | in every run a step restarts the sync if and only if its input is a reason to (close, failed or refused baseline, overflow, refused increment, stale feed), and then leaves nothing buffered or loaded |
| `FeedFlow.NothingLost` | feed/src/md/GenericFeedHandler.cpp:393-679 | over every interleaving, the incrementals handed to the controller since the last restart followed by those buffered are exactly those that arrived since then in a listening state, in arrival order, arrivals being read from the inputs |
| `FeedFlow.RestBaselineBridges` | feed/src/md/GenericFeedHandler.cpp:393-484 | a REST baseline that is not refused leaves the handler in WAIT_BRIDGE, or SYNCED exactly when a buffered increment goes beyond it |
| `FeedFlow.OpenWaits` | feed/src/md/GenericFeedHandler.cpp:310-338 | an opened socket waits for the kind of baseline of the venue, a retry for a REST one; both keep book and buffer and say so if the state changed |
| `FeedFlow.OldTimerIgnored` | feed/src/md/GenericFeedHandler.cpp:752-779 | over every run a reconnect timer of a generation before some restart changes nothing |
| `FeedFlow.CurrentTimerReconnects` | feed/src/md/GenericFeedHandler.cpp:752-779 | one whose generation saw no restart since bootstraps or reconnects |
| `FeedFlow.CheckpointsSpaced` | feed/src/md/GenericFeedHandler.cpp:852-881 | over every run between two checkpoints lie at least the configured number of published snapshots and incrementals |
| `FeedFlow.CheckpointDue` | feed/src/md/GenericFeedHandler.cpp:852-881 | the synced update that completes that number publishes a checkpoint at once |
| `FeedStatus.StatusTold` | feed/src/md/GenericFeedHandler.cpp:63-91 | over every run the last status on the published stream says synced if and only if the handler is, and never disconnected while it runs |
| `FeedStatus.CloseExactly` | feed/src/md/GenericFeedHandler.cpp:737-750 | over every run a socket close restarts the sync if and only if no restart came with or since the close before it |
| `Brain.UnifiedBook.FindOrCreate` | brain/src/brain/UnifiedBook.cpp:63-70 | the entry of a (venue, symbol), appended when new, others untouched |
| `Brain.VenueSlot.HandleEvent` | brain/src/brain/UnifiedBook.cpp:91-150 | the dispatch on the event type, with its own controller object and the order of health flag and parsing, computes `OnEvent`; what that must accept is `ParsesExactly`, `VenueAdvances` and `BrainKeepsUp` |
| `Brain.UnifiedBook.HandleEvent` | brain/src/brain/UnifiedBook.cpp:79-153 | routing one wire event changes exactly its own venue as `OnEvent` says, the slots being separate objects |
| `Brain.ParseLevels` | brain/include/brain/JsonParsers.hpp:60-67 | the loop over levels accepts a list exactly when each level parses |
| `Brain.ParsesExactly` | brain/include/brain/JsonParsers.hpp:40-67 | an event parses if and only if each of its levels is a removal (lot 0), or has a positive lot at a positive price |
| `Brain.RouteLookup` | brain/src/brain/UnifiedBook.cpp:63-153 | what any venue looks like after a routed event: changed by `OnEvent` exactly when the message has schema 1, a type, this venue and symbol, and a body |
| `Brain.HealthExactly` | brain/src/brain/UnifiedBook.cpp:91-150 | after any stream the venue is healthy exactly as the last telling event says (a status no, a checkpoint or anything that parses yes), and its book is empty if no baseline parsed since the last disconnect |
| `Brain.VenuesIndependent` | brain/src/brain/UnifiedBook.cpp:63-153 | after any stream, a venue's book is what its own events alone make of it |
| `Follower.IncrementParses` | brain/include/brain/JsonParsers.hpp:40-67 | an incremental made of writes of an exchange with positive prices and non-negative lots, removals included, always parses |
| `Follower.SnapshotParses` | brain/include/brain/JsonParsers.hpp:40-67 | so does every authentic snapshot |
| `Follower.VenueAdvances` | brain/src/brain/UnifiedBook.cpp:104-112 | a synced venue that consumes an authentic increment in reach stays synced and usable and is at its lastSeq if that is news |
| `Follower.IncrementLinked` | brain/src/brain/UnifiedBook.cpp:104-112 | a usable incremental keeps brain and feed at the same sequence, even when a feed guard then rejects it |
| `Follower.GapLinked` | feed/src/md/GenericFeedHandler.cpp:616-633 | an incremental beyond a gap makes the feed restart, and its status event makes the brain's venue unusable |
| `Follower.GapExact` | brain/src/brain/UnifiedBook.cpp:104-112 | after an out-of-reach incremental a usable venue mirrors the exchange if and only if no stale level was left |
| `Follower.CheckpointLinked` | brain/src/brain/UnifiedBook.cpp:113-121 | loading a published top-n checkpoint keeps the brain a sub-map of the exchange |
| `Follower.FollowsAlways` | feed/src/md/GenericFeedHandler.cpp:393-679 | over every run on honest inputs the published stream keeps feed, brain and exchange linked; honesty speaks of the exchange's writes, not of the parser |
| `Follower.BrainNeverPhantom` | brain/src/brain/UnifiedBook.cpp:79-153 | at every prefix of the published stream a usable venue shows only levels of the exchange at its applied sequence if and only if the last event was not an incremental beyond a gap that left a stale level; then the next event is a status; no exception once caught up; unusable right after any status |
| `Follower.BrainKeepsUp` | brain/src/brain/UnifiedBook.cpp:79-153 | on an uncrossed exchange, once the brain has consumed the stream of a feed with a baseline it is synced at the feed's applied sequence, part of the exchange's book, and usable if and only if the last event was not a status |
| `Follower.GapExposesPhantom` | brain/src/brain/UnifiedBook.cpp:104-112 | a run of the feed on honest inputs, with the stream it publishes, after whose fourth event the brain offers a bid the exchange has withdrawn |
| `Checkpoints.LoadIsTop` | common/src/orderbook/OrderBookController.cpp:44-72 | a snapshot side loads as the best `depth` of its resting levels |
| `Checkpoints.LoadOrderIrrelevant` | common/src/orderbook/OrderBookController.cpp:50-72 | two orders of the same levels load the same book |
| `Checkpoints.CheckpointRoundTrip` | feed/src/postprocess/WsPublishSink.cpp:228-249 | publish as book_state, parse, load: the first min(top, depth) levels of each side and the applied sequence come back, and the venue is synced |
| `RateLimits.PassKeepsSpacing` | brain/src/brain/ArbDetector.cpp:49-55 | one more admitted pass keeps all passes of a key spaced, for any clock |
| `Detector.ArbDetector.FlagAnomalies` | brain/src/brain/ArbDetector.cpp:165-194 | the flags set by the filter loop are exactly `Anomalous` per venue |
| `Detector.ArbDetector.CheckRateLimit` | brain/src/brain/ArbDetector.cpp:49-55 | admits exactly when the pair's last emission is old enough, and records the time only then |
| `Detector.ArbDetector.ScanVenues` | brain/src/brain/ArbDetector.cpp:152-273 | the nested loops with their early exits compute `ScanAll`: result, limiter state and callback trace |
| `DetectorMeaning.EligibleMeans` | brain/src/brain/ArbDetector.cpp:196-246 | a pair passes the guards if and only if: two synced venues, neither an outlier, bid > ask with both present, both ages and their difference within the limit, 20000(bid - ask) >= (min + both fees)(bid + ask), and the cap likewise; no division |
| `DetectorMeaning.CrossReports` | brain/src/brain/ArbDetector.cpp:256-265 | venues, ticks and times of a cross on their own sides; spread * (bid + ask) = 20000(bid - ask); spread less net = both fees |
| `DetectorMeaning.MedianIsMiddle` | brain/src/brain/ArbDetector.cpp:172-180 | twice the median is the sum of the two middle bids, middle meaning how many lie below and above, not a sort |
| `DetectorMeaning.AnomalousMeans` | brain/src/brain/ArbDetector.cpp:165-194 | a venue is excluded if and only if at least two venues quote, it quotes itself, and its bid is further from the middle of the quoted bids than the configured percentage |
| `DetectorLaws.RowsExact` | brain/src/brain/ArbDetector.cpp:152-270 | the result lists, in lexicographic order, precisely the ordered pairs of the first 16 venues that qualify in the sense of `EligibleMeans` and, under a rate limit, whose key was old enough when the scan began and has no earlier qualifying pair in it; each entry reports its pair as in `CrossReports` |
| `DetectorLaws.CrossesAcyclic` | brain/src/brain/ArbDetector.cpp:196-246 | when every book is itself uncrossed, following crosses never returns to the start |
| `DetectorLaws.CrossesBounded` | brain/src/brain/ArbDetector.cpp:196-270 | then at most one direction per pair and at most n(n-1)/2 crosses |
| `DetectorLaws.MedianInMajority` | brain/src/brain/ArbDetector.cpp:165-180 | for odd and even counts the median lies within any interval that holds a strict majority |
| `DetectorLaws.MajorityNeverFlagged` | brain/src/brain/ArbDetector.cpp:165-194 | no venue of a tight strict majority is flagged, whatever the minority reports |
| `DetectorLaws.CrossesSpaced` | brain/src/brain/ArbDetector.cpp:248-268 | over any sequence of scans and any clock, returned crosses of one pair are at least the rate limit apart |
| `DetectorLaws.StandbyOnlySilences` | brain/src/brain/ArbDetector.cpp:105-124 | toggling standby at any points changes no scan result; the callback sees exactly the crosses of active moments |
| `Exec.ExecEngine.HandleSignal` | exec/src/exec/ExecEngine.cpp:25-77 | guards E4, E1, E2, E3 in order, then dispatch: the new state is `OnSignal` |
| `Exec.ExecEngine.HandleReply` | exec/src/exec/ExecEngine.cpp:82-84 | a fill of any quantity and price adds its notional, an error adds nothing; either removes the order from flight |
| `Exec.ExecEngine.SetPaused` | exec/src/exec/ExecEngine.cpp:88-99 | pausing and resuming reach engine and strategy and change nothing else |
| `Exec.ImmediateStrategy.HandleSignal` | exec/src/exec/Strategies.cpp:22-77 | one order for the venue's leg, or none; nothing while paused; what that leg is, is `OrdersExactly` |
| `ExecOrders.OrdersExactly` | exec/src/exec/Strategies.cpp:22-80 | over every run the submitted orders correspond one to one and in order to the forwarded signals that name this venue: a Sell at the sell bid when it is the seller, else a Buy at the buy ask, the target quantity, ids counting from 1; none when the quantity is not positive |
| `ExecOrders.ForwardsExactly` | exec/src/exec/ExecEngine.cpp:25-77 | a signal reaches the strategy if and only if the sell price is within E4, filled notional plus it within E1, the last switch was not a Pause, and every forwarded signal of the pair lies a cooldown back |
| `ExecOrders.OpenIsBooked` | exec/src/exec/ExecEngine.cpp:82-84 | the notional E1 reads is the sum of price times quantity of the fills of orders in flight |
| `ExecOrders.PausedExactly` | exec/src/exec/ExecEngine.cpp:88-99 | over every run the engine is paused if and only if the last Pause or Resume was a Pause |
| `ExecOrders.PausedSubmitsNothing` | exec/src/exec/ExecEngine.cpp:88-99 | between a Pause and the next Resume nothing is submitted |
| `ExecOrders.FlightBalance` | exec/src/exec/Strategies.cpp:61-76 | orders in flight plus replies received equal orders submitted |
| `Exec.ExposureBounded` | exec/src/exec/ExecEngine.cpp:25-84 | with at most m orders in flight, target_qty <= 1 and no fill dearer than its order, filled plus in-flight notional never exceeds position_limit + (m-1) maximal orders |
| `Exec.CeilingIsProduct` | exec/src/exec/ExecEngine.cpp:29-49 | that ceiling is position_limit + (m-1) * target_qty * max_order_notional |
| `Exec.UnitGuardExact` | exec/src/exec/ExecEngine.cpp:29-49 | with one order at a time and whole fills, some run exceeds the position limit if and only if there are S and t >= 1 with Price(t) <= max_order_notional and q*Price(S) + Price(t) <= limit < q*Price(S+t) |
| `Exec.BreakingRunBreaks` | exec/src/exec/ExecEngine.cpp:25-84 | the run: S one-tick orders, each filled, then one at t, ends above the limit |
| `Exec.SmallQuantityKeeps` | exec/src/exec/ExecEngine.cpp:42-49 | with target_qty <= 1 no such S and t exist |
| `Exec.LiveOrdersCapped` | exec/include/exec/ExecCmdLine.hpp:122-151 | under accepted live-mode options no submitted order exceeds the live notional cap: sells always, buys on signals whose buy ask is at most their sell bid |
| `Exec.CapNeedsFairBuys` | exec/include/exec/ExecCmdLine.hpp:122-151 | without that condition on buys the cap holds for all admitted signals if and only if the target quantity is not positive |
| `Exec.SignalsSpaced` | exec/src/exec/ExecEngine.cpp:62-76 | dispatched signals of one pair are at least the cooldown apart, for any timestamps |
| `TimedQueues.PushInOrder` | scripts/arb_multi_sim.py:595-598 | a push with a fresh tiebreak keeps the queue in (time, tiebreak) order |
| `Streams.RawBookStateStream.FillBuffer` | scripts/jsonl_stream_loader.py:113-122 | prefetching changes nothing about what remains to be delivered; an empty buffer afterwards means the end |
| `Streams.RawBookStateStream.NextRow` | scripts/jsonl_stream_loader.py:173-182 | rows come in file order whatever the buffer size |
| `Streams.TimeMergedBookStream.AddFile` | scripts/unified_arb_stream.py:194-205 | opening a file computes one step of `Opened`, replacing an earlier stream of the venue |
| `Streams.TimeMergedBookStream.Next` | scripts/unified_arb_stream.py:212-219 | one turn of the iterator computes `Turn`, whatever the buffer sizes |
| `MergeLaws.MergeIsInterleaving` | scripts/unified_arb_stream.py:194-219 | at every moment the rows yielded for a venue with one file are a prefix of that file, and all of it once the heap is empty, whatever the other venues do |
| `MergeLaws.MergeDelivers` | scripts/unified_arb_stream.py:194-219 | after as many turns as there are rows a file alone in its venue was delivered whole and in order |
| `MergeLaws.MergeComplete` | scripts/unified_arb_stream.py:194-219 | after as many turns as there are rows the heap is empty, and all rows were delivered if and only if every file but the last of its venue has at most one row |
| `MergeLaws.MergeRows` | scripts/unified_arb_stream.py:194-219 | at the end a venue has delivered the first row of each of its files and the rest of its last one, nothing else |
| `MergeLaws.MergeIsSorted` | scripts/unified_arb_stream.py:171-219 | when every file is in time order, so is the merged stream, repeated venues included |
| `MergeLaws.SameVenueLosesRows` | scripts/unified_arb_stream.py:194-219 | two files of one venue for which a row is lost; the exact condition is `MergeComplete` |
| `Simulator.Detect` | scripts/unified_arb_stream.py:266-315 | the double loop computes `DetectCrosses` |
| `Simulator.DetectPair` | scripts/unified_arb_stream.py:286-313 | one directed pair yields a cross exactly when the books cross |
| `Simulator.FireDue` | scripts/arb_multi_sim.py:610-625 | the heap loop computes `Fire` |
| `Simulator.ScheduleAll` | scripts/arb_multi_sim.py:659-667 | the loop over latencies pushes one execution each, as `Schedule` |
| `Simulator.TakeCross` | scripts/arb_multi_sim.py:642-671 | opening or widening on one cross, as `OnCross` |
| `Simulator.CloseDead` | scripts/arb_multi_sim.py:673-681 | the closing loop computes `CloseFirst` |
| `Simulator.RunSimulation` | scripts/arb_multi_sim.py:604-711 | the event loop with its firing, opening and closing passes, and the drain, compute `After` followed by `Drain` |
| `SimLanes.LanesAlone` | scripts/arb_multi_sim.py:605-681 | within the shared heap each latency sees its own executions in order, and the market never depends on latencies |
| `SimLanes.AccountOfLane` | scripts/arb_multi_sim.py:605-711 | results, fills and capital of a latency are those of that latency run alone, also when it is listed several times, before and after the drain |
| `SimLanes.ScenariosIndependent` | scripts/arb_multi_sim.py:566-711 | two runs with different latency lists agree on every latency they share: results, fill order, capital path |
| `SimLaws.NoLookAhead` | scripts/arb_multi_sim.py:605-681 | each in-stream execution saw the market after exactly the events earlier than its time, and is reached if and only if its window was still open |
| `SimLaws.DrainIsHarmless` | scripts/arb_multi_sim.py:697-711 | the drain never fills and never changes capital: all it settles has expired |
| `SimLaws.FillFits` | scripts/arb_multi_sim.py:251-375 | a fill has positive net and fits both level-0 quantities, the target and the configured balances before it; otherwise capital is untouched; the figures and the exact condition are `FillExactly` |
| `SimFills.FillExactly` | scripts/arb_multi_sim.py:251-375 | an execution fills if and only if latency < lifetime, both books and their tops are there, bid > ask, quantities and configured balances are positive, and 10000(bid - ask) > ask * bps(buy venue) + bid * bps(sell venue); the note is the first condition that fails; a fill reports gross, each fee at its own venue's rate, net and capital of the largest admissible quantity |
| `SimFills.QtyIsLargest` | scripts/arb_multi_sim.py:307-333 | the quantity is the largest that liquidity, target, risk percentage and both balances allow |
| `SimFills.TakeExactly` | scripts/arb_multi_sim.py:335-375 | with a given quantity the two legs fill exactly when it is positive and the spread beats both fees |
| `SimLaws.CapitalAlways` | scripts/arb_multi_sim.py:213-235 | over every run quote = initial + sum of net results, each positive; base is constant; the equity curve is the prefix sums |
| `SimWindows.OpenWindowsAreLive` | scripts/arb_multi_sim.py:637-681 | after every event with two venues a pair has an open window exactly when it is a live cross, and only one |
| `SimBooks.BooksAreLatest` | scripts/unified_arb_stream.py:242-255 | the unified book holds a venue's latest book exactly when no periodic sweep since found it too old |
| `SimBooks.LiveMeansCross` | scripts/unified_arb_stream.py:266-315 | a directed pair is reported exactly when the two books are close in time and the top bid exceeds the top ask by the minimum spread |
| `SimBooks.ExecutionsSeeLatest` | scripts/arb_multi_sim.py:610-632 | an execution used the latest unswept books of its two venues among the events strictly earlier than its time |
| `SimBooks.WindowsTrackCrosses` | scripts/arb_multi_sim.py:627-681 | after every event with two venues a window is open exactly when the latest books of its venues cross |
| `SimResults.EveryWindowExecuted` | scripts/arb_multi_sim.py:610-711 | a window has a result for a latency exactly once an event reaches its opening plus the latency, and after the drain every window has one |
| `SimResults.FillsAreBooked` | scripts/arb_multi_sim.py:213-235 | the equity curve consists of the logged fills, in order and nothing else, with their time, quantity and net; the peak trade is the largest capital used |
| `SimResults.FillsArePriced` | scripts/arb_multi_sim.py:343-375 | over every run each logged fill has the prices of the books it saw and the fees of their venues |
| `SimPeaks.PeakIsWidest` | scripts/arb_multi_sim.py:642-671 | over every run the peaks of an open window, absolute and in basis points, are those of the widest top-of-book spread of its pair since it opened |
| `SimPeaks.WindowsAreBorn` | scripts/arb_multi_sim.py:642-658 | every window, open or closed, carries time and symbol of the event that opened it and the top quotes of the books at that event |
| `SimPeaks.RecordedExactly` | scripts/arb_multi_sim.py:673-681 | over every run the windows recorded are exactly those that closed after at least the minimum lifetime |
| `Frames.Socket.SendFrame` | scripts/brain_ws_server.py:75-84 | the bytes sent are the encoding of one final unmasked frame |
| `Frames.Socket.RecvExact` | scripts/brain_ws_server.py:87-94 | exactly n bytes, or none at the end of the stream, for any chunking by TCP |
| `Frames.Socket.RecvFrame` | scripts/brain_ws_server.py:97-121 | reads what `DecodeFrame` says and leaves the rest |
| `Frames.Socket.RecvFragments` | scripts/brain_ws_server.py:144-160 | the reassembly loop computes `ReadFragments`, including the pongs it sends |
| `Frames.Socket.RecvMessage` | scripts/brain_ws_server.py:124-160 | outcome, bytes left and frames sent are those of `ReadMessage` |
| `Frames.UnmaskMasked` | scripts/brain_ws_server.py:110-116 | unmasking under the key restores the payload |
| `Frames.MaskedAt` | scripts/brain_ws_server.py:110-116 | each masked byte is, bit by bit, the exclusive or with byte i % 4 of the key |
| `Frames.ToBigAt` | scripts/brain_ws_server.py:75-84 | length bytes written most significant first |
| `Frames.FromBigAt` | scripts/brain_ws_server.py:105-108 | and read that way |
| `Frames.FrameRoundTrip` | scripts/brain_ws_server.py:75-121 | decoding an encoded frame returns it and leaves the rest, in all three length forms and under any key or none |
| `Frames.CutFrameIsNone` | scripts/brain_ws_server.py:87-121 | a connection that ends anywhere inside a frame yields no frame |
| `Frames.MessageRoundTrip` | scripts/brain_ws_server.py:124-160 | any fragmentation, with pings and pongs anywhere after the first fragment, reads back as the message and answers each ping in order with its payload |
| `Frames.SingleFrame` | scripts/brain_ws_server.py:124-141 | a final data frame or a lone control frame is its own message, a continuation of nothing is an error, and the rest is left unread |
| `Frames.FragmentedRead` | scripts/brain_ws_server.py:124-160 | a fragmented message, pings and pongs anywhere, ends with its last fragment, a close that is answered, or an error for any other frame |
| `Decimals.ScanFraction` | common/include/orderbook/OrderBookUtils.hpp:41-51 | the digit loop reads the first k fraction digits, or reports a non-digit among them |
| `Decimals.PadFraction` | common/include/orderbook/OrderBookUtils.hpp:53-57 | the padding loop multiplies by the missing power of ten |
| `Decimals.ParseDecimalToScaled` | common/include/orderbook/OrderBookUtils.hpp:20-61 | the whole routine computes `Parse`, including when it throws |
| `Decimals.ParseTruncates` | common/include/orderbook/OrderBookUtils.hpp:20-61 | for every readable string and scale 10^k the result is value times scale, truncated toward zero |
| `Decimals.ParseMonotone` | common/include/orderbook/OrderBookUtils.hpp:20-61 | the result is monotone in the numeric value |
| `Decimals.ParseFits` | common/include/orderbook/OrderBookUtils.hpp:20-61 | no int64 overflow when the integer part is at most (2^63 - scale)/scale |
| `Decimals.AcceptsExactly` | common/include/orderbook/OrderBookUtils.hpp:20-61 | for every string, proper decimal or not: accepted if and only if it is not empty, the part before the first point (after one minus) is empty or starts with an optional minus and digits that fit 64 bits, and the first k characters after the point are digits |
| `Decimals.ReadableExactly` | common/include/orderbook/OrderBookUtils.hpp:20-61 | the strings read as the number they spell are the proper decimals whose integer part fits, and three without a digit that read as zero |
| `Decimals.JunkAccepted` | common/include/orderbook/OrderBookUtils.hpp:20-61 | malformed strings of each kind that are accepted, and what they read as |

## Left out

- Display strings of levels: an in-place update leaves them stale, and no modelled decision reads them.
- Timestamps in feed and brain messages and the clamping of brain timestamps: only the detector's and simulator's times matter to the results here.
- 64-bit wrap-around of ticks, lots and sequence numbers, and floating-point rounding (reals instead of doubles).
- JSON and MessagePack text, venue adapters, symbol normalisation: messages arrive typed, with a flag for a failed parse.
- WsClient, RestClient, WsServer, SignalServer, HealthServer, TLS and sockets: only the events they deliver. Publisher queues that drop messages are not modelled; the brain is shown the whole published stream.
- Reconnect backoff and jitter, heartbeat, `stop()`, logging, file persistence and rotation: timers are inputs that may fire at any moment of their generation.
- No claim is made that every close schedules a reconnect: `closing_for_restart_` stays set after an unexpected close, so the next close is taken for the handler's own (`FeedStatus.CloseExactly`).
- CRC-32: the checksum is an arbitrary predicate on book and value.
- `std::lower_bound`, `std::sort` and `heapq` are functions with the library's contract: a first position, a stable sort on equal ticks, a queue kept in (time, tiebreak) order.
- The simulator holds its windows and capital states as values, so aliasing of those objects is not captured; results are stored per latency and window rather than on the window.
- The market pair label of an equity point.
- DeadlineOrderTracker timers and the text of order ids; a client replies once per order.
- ExposureBounded: assumes 0 < target_qty <= 1 and signals with buy ask <= sell bid, as the detector emits them; `UnitGuardExact` covers larger quantities for one order at a time.
- LiveOrdersCapped: for a buy it needs buy ask <= sell bid, because E4 looks at the sell bid only (`CapNeedsFairBuys`); the detector emits no other signals.
- NoLookAhead: `reached` equals "window still open" for latencies below the 2^60 ns that stand for an unbounded lifetime.
- FollowsAlways: honest inputs are authentic snapshots and incrementals whose levels are writes of their range at positive prices; nothing is claimed about a lying exchange beyond `FeedInvAlways`.
- CheckpointsSpaced: gives the least distance over a run and `CheckpointDue` the moment from the counter; a restart does not reset the counter, as in the code.
- ReplicaExact: needs room for each message; at smaller depths `NeverPhantom` and `TopAgrees` apply.
- MergeIsInterleaving: the order within a venue is stated for a venue with one file; for repeated ones `MergeRows` gives the rows and `MergeIsSorted` the order in time.
- ParseTruncates: for scales that are powers of ten, which are the ones in use.
- Simulator prices are positive by type; a pair of zero prices would divide by zero in the original.
- End-of-file reporting of still open windows, CSV output, latency histograms and report printing.
- The WebSocket opening handshake and command-line options other than the live-mode guards.

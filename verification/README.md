# A model of common_fw: win analysis, framing, timers, sessions

This project models the parts of the Go framework common_fw whose correctness is not
visible from one function body, and proves what they compute or keep.

- **Win analysis** (`Tiles`, `SuitRows`, `SevenPairs`, `HuAnalyser`, `Splitter`,
  `SplitTheorems`, `SplitOrders`, `NormalJudges`, `WildJudges`, `WildSearch`, `WildSizes`). One declarative
  definition, `Tiles.Wins`: the multiset of tiles can be used up by runs, triplets and
  exactly one pair. The exhaustive splitter, the greedy count table that never backtracks,
  and the wild-card search with its pruning modulo 3 are each proved equivalent to it.
- **Framing and closing** (`Framing`, `Receiver`, `Connection`, `CloseLaws`, `SendRoutine`, `EndToEnd`). The frame
  format, the receiver that reassembles frames from arbitrary reads in a fixed buffer, the
  sender that batches them, and the two-phase close, as a state machine over the steps of
  the goroutines that share a connection.
- **Timed actions** (`TimeoutActions`, `TimerHistory`, `OneShotTimers`, `HandlerRuns`, `PausedTime`,
  `RepeatingTimers`, `MainLoop`). The maps of the main loop plus the messages and waiting
  goroutines around it, one step for each message handled, in any order. When a waiter is
  armed is kept apart from what the loop records about it.
- **Data sessions** (`DataSession`, `DataSdk`, `Uuid`). The race between a response and a
  timeout for a session, one step for each section under the lock; and each goroutine from
  start to end, with arbitrary steps of the others in between.
- **Grouping by position** (`Gps`, `GpsComponents`) and **round-robin choice** (`RoundRobin`).

Where the source updates fields in place, the model has a class whose methods are tied to a
function of the old state (`HuAnalyser001`, `Receiver.Conn`, `SendRoutine.Conn`,
`BaseService`, `SDK`, `UuidGen`, `Client`); the laws over whole runs are lemmas about those
functions. `Counting` holds lemmas about counting in sequences.

Outcomes of the socket, the pipes, the clock, the network and the handlers are parameters or
events: each read has an arbitrary length bound, each pipe write may time out, each timer may
fire before a cancel is noticed, each handler may panic.

## What the proofs brought to light

- The wild-card search uses only as many wild cards as a least completion needs, so it does
  not always answer whether some tiles for all of them win. `WildSearch.Verdict` is its exact
  answer for every hand and every number of wild cards; `WildSizes.RightIffRightSize` gives
  the sizes for which that is the right answer on every hand, and `WildSizes.WrongSizeIsWrong`
  a hand for every other size. With one to three wild cards the right sizes are a total of
  3n + 2, or one wild card and 3n tiles.
- A second close request closes a connection at once; accepted messages are lost exactly when
  some were pending (`SecondCloseRequest`, `TwoCloseRequestsLose`).
- A failed write closes the connection, except when the socket's Close fails as well: then the
  send routine is gone and the connection still accepts messages. That is the only way for it
  to return from an open connection (`AbandonedIff`, `AbandonedOpen`).
- After a handled delete of a timed action its handler can run again exactly if an add with a
  function is still on its way (`DeleteEndsRuns`), and the action can be registered again
  exactly if any add or re-arm is (`DeleteEndsRegistration`). A repeating action whose delete
  overtakes its re-arm comes back without a handler (`DeleteOvertakesRearm`).
- A handler that panics leaves its one-shot action registered. After a run it can run again
  exactly if it panicked, or had also been paused or added anew (`RunsAgainIffPanicked`,
  `PanicRunsTwice`).
- What pausing conserves is the wait that gets armed. The handler can run before that wait is
  over exactly if an expiry or a waiter from before the pause is still there
  (`EarlyRunIffStale`), and such a run exists with all messages taken in the order sent
  (`StaleExpiryRunsEarly`).
- An invalid response cancels the timeout and then completes nothing: a synchronous caller
  whose response is taken can still return exactly if the response is valid
  (`CallerReturnsIffValid`, `InvalidResponseStrandsCaller`).
- An asynchronous request that cannot be encoded is taken out of the session map but not
  reported as failed (`StartDataOps`); a synchronous one is.
- The check and the addition of the id generator are separate steps. Concurrent ids are still
  unique, as its comment promises (`ConcurrentAreDistinct`), but the reserved id 0 can come
  out: within a round of the check, exactly when the counter has reached its maximum since
  (`ZeroIffStale`, `ZeroComesOut`).
- Positions are grouped with repetition: a close pair adds as many equal groups as there are
  groups that hold neither user (`AddPair`, `FarPairsRepeat`). Groups are connected, but need
  not be the connected components (`LinkedButApart`): two users share a group exactly if one
  that starts with some close pair spreads to both over the pairs compared later
  (`CoveredIffSpread`). When everybody linked with an earlier user is close to an earlier
  user, the groups are the connected components (`ChainedUsersShare`).

## Model

| member | source | states |
|---|---|---|
| Tiles.PartitionSize | src/xxgame.com/component/mjana/mjana.go:306-323 | conservation: a grouping of the whole hand accounts for its size, three tiles a run or triplet and two a pair |
| Tiles.WinningSize | src/xxgame.com/component/mjana/mjana.go:219-231 | a hand of melds and one pair has 3n + 2 tiles |
| Tiles.SuitResidues | src/xxgame.com/component/mjana/mjana.go:219-231 | the counting argument of the pruning: the suit of the pair has 3n + 2 tiles and every other suit 3n |
| SuitRows.TripletFirst | src/xxgame.com/component/mjana/mjana.go:1375-1383 | with three or more of the lowest tile, taking a triplet first loses no solution, because three equal runs are three triplets |
| SuitRows.RunFirst | src/xxgame.com/component/mjana/mjana.go:1385-1400 | with one or two of the lowest tile, the suit splits exactly if a run can be taken there and the rest splits; honours have no runs |
| SuitRows.MeldableResidue | src/xxgame.com/component/mjana/mjana.go:1314-1334 | a row of runs and triplets has a total divisible by 3 |
| HuAnalyser.WinningResidues | src/xxgame.com/component/mjana/mjana.go:1314-1334 | in a winning table the pair's suit alone has remainder 2 and no suit has remainder 1 |
| HuAnalyser.NoPairSuit | src/xxgame.com/component/mjana/mjana.go:1319-1334 | a remainder 1 or a second remainder 2 means that the table does not win |
| HuAnalyser.OnlyPairSuit | src/xxgame.com/component/mjana/mjana.go:1336-1346 | otherwise only the suit found by the scan can hold the pair, also when no remainder is 2 and it stays suit 0 |
| HuAnalyser.HuAnalyser001.Init | src/xxgame.com/component/mjana/mjana.go:1301-1312 | adds to each column the tiles of that suit and value up to the first invalid tile, and to column 0 their sum |
| HuAnalyser.HuAnalyser001.Split3NP2 | src/xxgame.com/component/mjana/mjana.go:1364-1400 | true exactly when the row can be used up by triplets and, for numbered suits, runs; the table is as it was, no column past 9 is read, and the recursion ends |
| HuAnalyser.HuAnalyser001.FirstLevel | src/xxgame.com/component/mjana/mjana.go:1314-1363 | true exactly when the four rows are one pair plus melds; the table is as it was |
| HuAnalyser.HuAnalyser001.PairSuit | src/xxgame.com/component/mjana/mjana.go:1315-1334 | the remainder scan either rules the table out or names the only suit that can hold the pair |
| HuAnalyser.HuAnalyser001.TryPairs | src/xxgame.com/component/mjana/mjana.go:1348-1362 | finds a pair of the suit whose removal leaves melds exactly if there is one, putting each tried pair back |
| HuAnalyser.HuAnalyser001.Recursive3NP2 | src/xxgame.com/component/mjana/mjana.go:1295-1299 | on a fresh table, true exactly when the counted tiles win, so the order of the tiles does not matter |
| HuAnalyser.HuAnalyser001.Split001 | src/xxgame.com/component/mjana/mjana.go:1276-1285 | seven pairs in hand order, or the winning shape of the counted tiles |
| HuAnalyser.HuAnalyser001.Split002 | src/xxgame.com/component/mjana/mjana.go:1287-1293 | exactly the winning shape of the counted tiles |
| HuAnalyser.TableWinsIsWins | src/xxgame.com/component/mjana/mjana.go:1295-1312 | the counted table wins exactly when the multiset of tiles does |
| SevenPairs.Is7Dui | src/xxgame.com/component/mjana/mjana.go:1252-1269 | fourteen tiles whose neighbours, two by two, are equal |
| Splitter.FindSeq | src/xxgame.com/component/mjana/mjana.go:138-164 | finds three consecutive tiles starting at the first one exactly if the sorted hand has them, with the 32-bit subtraction of values |
| Splitter.RunLeft | src/xxgame.com/component/mjana/mjana.go:82-98 | what is left after cutting out a run is the hand without exactly those three tiles, still sorted |
| Splitter.Merge | src/xxgame.com/component/mjana/mjana.go:167-174 | every outcome of the rest gains the group that was taken |
| Splitter.SubSplit | src/xxgame.com/component/mjana/mjana.go:178-185 | the outcomes of the rest, each with the group that was taken |
| Splitter.Split | src/xxgame.com/component/mjana/mjana.go:76-135 | all outcomes of the run, triplet and pair branches at the lowest tile, or the stuck hand itself as the only one; `OutcomesExact` and `EachOrderOnce` say which they are |
| SplitTheorems.SplitsConserve | src/xxgame.com/component/mjana/mjana.go:76-185 | in every outcome the groups and what is left add up to the hand, and what is left cannot be grouped at its lowest tile |
| SplitTheorems.SplitsComplete | src/xxgame.com/component/mjana/mjana.go:76-135 | every way to take groups from a sorted hand until the rest is stuck, with no group above the rest, is among the outcomes |
| SplitTheorems.OutcomesExact | src/xxgame.com/component/mjana/mjana.go:76-185 | exactly which outcomes there are, also with tiles left over: groups and rest add up to the hand, runs are not of honours, the rest is sorted and stuck, and no group starts above its lowest tile |
| SplitTheorems.SplitsNotEmpty | src/xxgame.com/component/mjana/mjana.go:76-135 | every hand has an outcome |
| SplitTheorems.SplitsExact | src/xxgame.com/component/mjana/mjana.go:76-185 | the outcomes with nothing left are exactly the groupings of the whole hand |
| SplitOrders.EachOrderOnce | src/xxgame.com/component/mjana/mjana.go:76-185 | the outcomes correspond one to one to the orders in which runs, triplets and pairs can be taken from the lowest tile until none starts there |
| NormalJudges.FactorNIsForced | src/xxgame.com/component/mjana/mjana.go:306-317 | with one pair and nothing left, the required number of runs and triplets holds by conservation |
| NormalJudges.WinningOutcome | src/xxgame.com/component/mjana/mjana.go:310-317 | some outcome passes the winning test exactly when the hand wins |
| NormalJudges.SevenPairsOutcome | src/xxgame.com/component/mjana/mjana.go:318-323 | some outcome passes the seven-pairs test exactly when fourteen tiles all occur an even number of times |
| NormalJudges.AnalyzeNormalCards | src/xxgame.com/component/mjana/mjana.go:306-326 | the splitter judge accepts a sorted hand exactly when it wins or is seven pairs |
| NormalJudges.AnalyzeNormalCardsOpt | src/xxgame.com/component/mjana/mjana.go:297-301 | the count-table judge accepts neighbouring pairs or the winning shape of the counted tiles |
| NormalJudges.JudgesAgree | src/xxgame.com/component/mjana/mjana.go:297-326 | the two judges' answers are the same on every sorted hand of valid tiles |
| WildJudges.SortInsertCards | src/xxgame.com/component/mjana/mjana.go:1207-1250 | each wild tile goes before the first tile that is not below it |
| WildJudges.InsertAllTiles | src/xxgame.com/component/mjana/mjana.go:1207-1250 | the insertion keeps a sorted hand sorted and adds exactly the wild tiles |
| WildJudges.AnaWild3NP2CardsOpt | src/xxgame.com/component/mjana/mjana.go:1157-1177 | insertion and splitting accept exactly when the tiles together win |
| WildJudges.AnaWild3NP2CardsOpt2 | src/xxgame.com/component/mjana/mjana.go:1144-1155 | sorting and counting accept exactly when the valid beginning of the sorted tiles wins |
| WildJudges.WildJudgesAgree | src/xxgame.com/component/mjana/mjana.go:1144-1177 | on valid tiles the two verdicts are the same: whether the tiles together win |
| WildSearch.PreAna3NP2WildCards | src/xxgame.com/component/mjana/mjana.go:232-267 | for each pair suit, what every suit lacks by its size, whatever the values of the tiles, kept only if the wild cards suffice |
| WildSearch.TryFrom | src/xxgame.com/component/mjana/mjana.go:989-1041 | the nested loops find a winning choice for the remaining wild cards exactly if there is one, overwriting only those positions |
| WildSearch.PossibleCards | src/xxgame.com/component/mjana/mjana.go:974-984 | one slot of the right suit and range for each tile lacking |
| WildSearch.Exhaustion4Wild3NP2CardsOpt | src/xxgame.com/component/mjana/mjana.go:972-1045 | true exactly when one to three tiles are lacking and some choice for them wins |
| WildSearch.ExhaustionAllZeroWild3NP2CardsOpt | src/xxgame.com/component/mjana/mjana.go:679-731 | true exactly when some three tiles of one suit win |
| WildSearch.Ana3NP2WildMenCardsOpt | src/xxgame.com/component/mjana/mjana.go:452-499 | true exactly when the search of some kept pair suit succeeds |
| WildSearch.Analyze3NP2WildCards | src/xxgame.com/component/mjana/mjana.go:359-374 | for every hand and number of wild cards: the least completing number of tiles can be chosen to win, and it does not exceed the wild cards or is three tiles of one suit |
| WildSearch.SearchIsExact | src/xxgame.com/component/mjana/mjana.go:359-374 | with one to three wild cards and a total of 3n + 2 tiles, the answer is exactly whether some tiles for all the wild cards win |
| WildSizes.RightIffRightSize | src/xxgame.com/component/mjana/mjana.go:359-374 | for which sizes of the hand and numbers of wild cards the answer is right on every hand, as an if-and-only-if |
| WildSizes.WrongSizeIsWrong | src/xxgame.com/component/mjana/mjana.go:232-267 | for every other size, a hand of valid tiles on which the answer is wrong |
| WildSizes.MoreWildCards | src/xxgame.com/component/mjana/mjana.go:219-231 | three more wild cards never hurt: they may become a triplet |
| WildSearch.FillMatchesNeeds | src/xxgame.com/component/mjana/mjana.go:219-267 | a least completion takes from each suit exactly what it lacks for some pair suit, or is three tiles of one suit when nothing is lacking |
| Framing.HeadBytes | src/xxgame.com/component/net/net.go:635-640 | the eight bytes of the head: frame size, magic number and type, high bytes first |
| Framing.HeadFields | src/xxgame.com/component/net/net.go:635-640 | size, magic number and type are read back from any bytes that begin with the head |
| Framing.FrontFrame | src/xxgame.com/component/net/net.go:376-395 | what begins the frames of accepted messages has a valid head, and with enough bytes it begins with the whole frame |
| Framing.DeliveryIsUnique | src/xxgame.com/component/net/net.go:313-431 | received bytes divide in only one way into delivered messages and an incomplete rest, so the cutting into reads cannot matter |
| Receiver.Conn.Recv | src/xxgame.com/component/net/net.go:306-432 | for any reads and pipe timeouts: the delivered messages are the first of those sent, in order, their frames and the buffer are the bytes received, the buffer holds no complete frame, and no closing check is met; every read that yields anything makes progress, and enough of them deliver everything |
| Receiver.Conn.Process | src/xxgame.com/component/net/net.go:373-430 | delivers every complete frame, retrying timeouts without loss or duplicate, and moves the rest to the front |
| Receiver.Conn.DeliverOne | src/xxgame.com/component/net/net.go:376-413 | delivers the frame at the read position once, or nothing on a timeout |
| Receiver.Conn.ReadMore | src/xxgame.com/component/net/net.go:324-354 | a read appends the next bytes of the stream after those in the buffer, as many as it yields and there is room for |
| Receiver.FrameDelivered | src/xxgame.com/component/net/net.go:391-413 | the message cut out of the buffer is the next one sent, and the account of bytes still holds after it |
| Connection.StepKeepsInv | src/xxgame.com/component/net/net.go:435-544 | every step keeps: bytes written, batched and piped are the accepted frames in order, and the close bookkeeping |
| Connection.EveryRun | src/xxgame.com/component/net/net.go:435-544 | in every run the socket has taken a beginning of the accepted frames, a batch is shorter than one and a half buffers, and pipes are closed and the callback fires at most once |
| Connection.GracefulClose | src/xxgame.com/component/net/net.go:475-549 | with one close request and a healthy socket, a closed connection has written every accepted message in order and was closed by this side |
| Connection.CloseComesAbout | src/xxgame.com/component/net/net.go:475-549 | after one close request on a healthy socket, whatever happened so far, the connection can still be closed with everything written |
| Connection.SecondCloseRequest | src/xxgame.com/component/net/net.go:514-544 | a second request closes at once, and what was accepted gets written exactly if nothing was pending |
| Connection.TwoCloseRequestsLose | src/xxgame.com/component/net/net.go:514-544 | a run in which two requests lose an accepted message |
| CloseLaws.ClosedIff | src/xxgame.com/component/net/net.go:475-544 | the only steps that close an open connection: a second request, the send routine finding the pipe empty after the first, a fault, or a failed write, each if the socket's Close succeeds |
| CloseLaws.ReasonOfRun | src/xxgame.com/component/net/net.go:501-544 | in every run one step closed the connection, and its kind is the reason reported: by the other side exactly for an end of stream, by accident exactly for another fault or a failed write, by this side exactly for a request or the drained pipe |
| CloseLaws.RequestsAnnounce | src/xxgame.com/component/net/net.go:514-522 | an open connection is about to close exactly if it has been asked to |
| CloseLaws.NoSilentEnd | src/xxgame.com/component/net/net.go:475-508 | in every run in which the socket's Close succeeds, a send routine that has returned leaves a closed connection, with the pipes closed once and the callback called |
| CloseLaws.AbandonedIff | src/xxgame.com/component/net/net.go:501-508 | the send routine has returned from a connection that is still open exactly if a write has failed and the Close after it too |
| CloseLaws.AbandonedOpen | src/xxgame.com/component/net/net.go:501-532 | a run that ends so, with a message accepted afterwards that nobody will send |
| CloseLaws.FaultCloses | src/xxgame.com/component/net/net.go:501-544 | after a fault or a failed write whose Close succeeds, whatever happens before and after, the connection is closed, with the pipes closed once and one callback |
| CloseLaws.AcceptedIff | src/xxgame.com/component/net/net.go:614-648 | a message is accepted exactly if no close is pending or done, this side can send, it holds 1 to 65527 bytes and the pipe takes it; otherwise nothing changes |
| CloseLaws.ClosingAcceptsNothing | src/xxgame.com/component/net/net.go:615-628 | once a close is pending or done, and always on a UDP server, no run accepts a message or puts one into the pipe |
| CloseLaws.AcceptedMessages | src/xxgame.com/component/net/net.go:614-648 | in every run on a healthy socket the accepted messages are exactly the valid ones offered before the first close request, in order |
| EndToEnd.Transfer | src/xxgame.com/component/net/net.go:306-509 | given any beginning of what the socket took in any run of the sender, the receiver delivers a beginning of the accepted messages; with enough reads nothing that arrived completely is missing, and after a graceful close everything is delivered |
| SendRoutine.Conn.CloseNow | src/xxgame.com/component/net/net.go:514-544 | a first normal close is only announced; any other closes if the socket can be closed, with the reason that tells request, end of stream and accident apart |
| SendRoutine.Conn.SendMsg | src/xxgame.com/component/net/net.go:614-648 | accepts exactly messages of valid size on an open, not closing connection that can send, and appends their frame to the pipe |
| SendRoutine.Conn.ReadPacketsFromPipe | src/xxgame.com/component/net/net.go:435-472 | the batch and the pipe together are the old pipe, in order; the batch is below one and a half buffers, and at least half a buffer or all there was; the loop is a sequence of the machine's steps |
| SendRoutine.Conn.SendRound | src/xxgame.com/component/net/net.go:479-508 | one round of the send routine is a sequence of the machine's steps; a closed connection ends it, and so does a failed write, which closes the connection; with a healthy socket it writes the front of the pipe: all of it, or at least half a buffer |
| TimeoutActions.RunKeepsConsistent | src/xxgame.com/framework/base/service.go:628-735 | over every run the three maps have the same keys and no cancel channel is closed twice |
| TimeoutActions.RunStrandsNone | src/xxgame.com/framework/base/service.go:664-729 | over every run a waiting goroutine whose registration is gone finds its channel closed |
| TimerHistory.RegisteredIff | src/xxgame.com/framework/base/service.go:633-735 | in every run an action is registered exactly if a handled add, or resume of a paused timer, registered it and no delete, pause or run to its end has been handled since |
| TimerHistory.PausedAfter | src/xxgame.com/framework/base/service.go:634-735 | an action is paused from a pause of it while registered until it is resumed or deleted |
| TimerHistory.RunsAfter | src/xxgame.com/framework/base/service.go:677-706 | a handler starts exactly when the expiry of its action is handled while that is registered with a function |
| TimerHistory.SentAfter | src/xxgame.com/framework/base/service.go:677-695 | exactly the expiry of a registered repeating action sends its next add, with or without a handler, panic or not |
| TimerHistory.ArmedAfter | src/xxgame.com/framework/base/service.go:634-676 | which messages arm a waiter, for how long, and that it listens to its action's registered channel |
| OneShotTimers.StepSpendsChance | src/xxgame.com/framework/base/service.go:633-735 | no step creates a chance to run except an add or a panicking handler |
| OneShotTimers.RunsAtMostAsAdded | src/xxgame.com/framework/base/service.go:628-735 | in every run a one-shot action runs at most once for each add plus once for each panic, whatever the order of messages |
| OneShotTimers.RegisteredIsAlive | src/xxgame.com/framework/base/service.go:633-735 | no lost timer: unless its handler panics, a registered one-shot action always has a waiter on its own channel or an expiry on its way |
| HandlerRuns.CanRunIffHeld | src/xxgame.com/framework/base/service.go:633-735 | without a new add a handler can still run exactly if an add with a function is on its way, or the action is registered with one, or else paused with one |
| HandlerRuns.RunsAgainIffPanicked | src/xxgame.com/framework/base/service.go:677-707 | after a one-shot handler ran it can run again exactly if it panicked, or had also been paused or added anew |
| HandlerRuns.PanicRunsTwice | src/xxgame.com/framework/base/service.go:677-707 | a run in which an action added once runs twice because its handler panics |
| HandlerRuns.DeleteEndsRuns | src/xxgame.com/framework/base/service.go:716-735 | after a handled delete the handler can run without a new add exactly if an add with a function is still on its way |
| HandlerRuns.DeleteEndsRegistration | src/xxgame.com/framework/base/service.go:716-735 | after a handled delete the action can be registered without a new add exactly if an add or re-arm is still on its way |
| HandlerRuns.DeletedOnceIsOver | src/xxgame.com/framework/base/service.go:644-735 | a one-shot action added once never runs and is never registered after a delete handled after its add, whatever is still on its way |
| PausedTime.PausesConserveTime | src/xxgame.com/framework/base/service.go:634-660 | in every run in which a one-shot action is added once: the armed wait, or what is left of a paused one, plus the time its waiters were armed before is the original wait, and the recorded start is when its waiter was armed |
| PausedTime.EarlyRunIffStale | src/xxgame.com/framework/base/service.go:634-707 | after a resume the handler can run without the resumed waiter exactly if an expiry or a waiter from before the pause is still there |
| PausedTime.StaleExpiryRunsEarly | src/xxgame.com/framework/base/service.go:634-707 | a run, messages taken in the order sent, in which the handler runs at the resume with more than half its wait left |
| RepeatingTimers.RepeatingHasOneToken | src/xxgame.com/framework/base/service.go:644-707 | in every run in which a repeating action is added once and otherwise left alone, it has exactly one token among add, re-arm, waiter and expiry, whatever other actions do |
| RepeatingTimers.OwnExpire | src/xxgame.com/framework/base/service.go:677-707 | handling its expiry runs its handler once, if there is one, and leaves one re-arm |
| RepeatingTimers.DeleteOvertakesRearm | src/xxgame.com/framework/base/service.go:644-735 | a run, messages taken in the order sent, in which a delete handled before the re-arm is undone by it: the action ends registered without a handler and armed |
| MainLoop.DecimalInjective | src/xxgame.com/framework/base/service.go:885-893 | allocated numbers give different ids |
| MainLoop.BaseService.AddTimeoutAction | src/xxgame.com/framework/base/service.go:885-893 | sends the add under the next allocated id |
| MainLoop.BaseService.Receive | src/xxgame.com/framework/base/service.go:628-735 | the treatment of one message, with its fall-through cases, is one step of the machine |
| MainLoop.BaseService.ArmTimer | src/xxgame.com/framework/base/service.go:644-676 | registers an action unless it exists and arms a waiter, ignoring a second one-shot add |
| MainLoop.BaseService.Execute | src/xxgame.com/framework/base/service.go:677-706 | runs the handler, re-arms a repeating action first, and leaves a panicking one registered |
| MainLoop.BaseService.Unregister | src/xxgame.com/framework/base/service.go:716-729 | removes the action from the three maps and closes its channel |
| MainLoop.BaseService.MainLoop | src/xxgame.com/framework/base/service.go:628-735 | taking messages from any positions, with any sending and firing in between, is exactly the run of these events, keeps the maps consistent and closes no channel twice |
| DataSession.StepKeepsInv | src/xxgame.com/component/datasdk/datasdk.go:146-191 | every step keeps: the right to complete a session exists exactly once, in the map, in flight, used or given up |
| DataSession.CompletedAtMostOnce | src/xxgame.com/component/datasdk/datasdk.go:386-437 | over all interleavings a session is completed at most once, by the response or the timeout, and its channels never hold more than their capacity |
| DataSession.SendsNeverBlock | src/xxgame.com/component/datasdk/datasdk.go:151-189 | before every send on a session's channel that channel is empty, also for the send under the lock |
| DataSession.StoppedStaysQuiet | src/xxgame.com/component/datasdk/datasdk.go:162-162 | a timer stopped before it fires never fires, in any run |
| DataSession.LateResponseIgnored | src/xxgame.com/component/datasdk/datasdk.go:149-160 | a response whose session has left the map has no effect |
| DataSession.CanFinishIffNotDropped | src/xxgame.com/component/datasdk/datasdk.go:146-191 | a started session can still be completed exactly if its completion was not given up |
| DataSession.CallerReturnsIffNotDropped | src/xxgame.com/component/datasdk/datasdk.go:548-550 | a waiting synchronous caller can still return exactly if its completion was not given up |
| DataSession.CallerReturnsIffValid | src/xxgame.com/component/datasdk/datasdk.go:161-182 | once the response of a waiting caller is taken, the caller can still return exactly if the response is valid |
| DataSession.InvalidResponseStrandsCaller | src/xxgame.com/component/datasdk/datasdk.go:161-182 | a run in which an invalid response leaves the caller waiting forever |
| DataSession.TimerCanExit | src/xxgame.com/component/datasdk/datasdk.go:397-420 | from every state a session's timer goroutine can still end |
| DataSdk.SDK.DoDataOps | src/xxgame.com/component/datasdk/datasdk.go:496-550 | a synchronous request, with any steps of others in between, returns an answer once its session was completed, exactly once, and not before; if all the others' steps brought no result it can return later exactly if the completion was not given up; a failed send leaves no session in the map |
| DataSdk.SDK.StartDataOps | src/xxgame.com/component/datasdk/datasdk.go:386-432 | an asynchronous request that cannot be encoded or sent leaves no session in the map, and only the failed send is reported; afterwards it can be completed exactly if its completion was not given up |
| DataSdk.SDK.RecvJob | src/xxgame.com/component/datasdk/datasdk.go:146-191 | takes responses as long as any wait, and every one taken, with any steps of others in between, has settled its session: completed, about to be completed by the timeout, or given up |
| DataSdk.SDK.RecvOne | src/xxgame.com/component/datasdk/datasdk.go:148-189 | a valid response that still finds its session completes it |
| DataSdk.SDK.TimerJob | src/xxgame.com/component/datasdk/datasdk.go:397-420 | a session's timer goroutine ends once it is told to go or its timer has run out; then its session is out of the map, and what it reported is the only completion |
| Uuid.UuidGen.GenID | src/xxgame.com/component/uuid/uuid.go:16-23 | returns and stores the next id, skipping 0 at the wrap |
| Uuid.GeneratedValue | src/xxgame.com/component/uuid/uuid.go:15-23 | the ids go round through 1 to 2^32 - 1, in order |
| Uuid.GeneratedAreDistinct | src/xxgame.com/component/uuid/uuid.go:15-23 | no id is 0 and none repeats within 2^32 - 1 consecutive calls |
| Uuid.CallsAreGenerated | src/xxgame.com/component/uuid/uuid.go:16-23 | calls that do not overlap return the ids of consecutive atomic calls |
| Uuid.ConcurrentAreDistinct | src/xxgame.com/component/uuid/uuid.go:16-23 | however checks and additions of concurrent callers interleave, ids fewer than 2^31 calls apart are different |
| Uuid.ZeroIffStale | src/xxgame.com/component/uuid/uuid.go:18-21 | an addition returns the reserved id 0 exactly if the counter stands where the amount decided at the check takes it to 0; within a round of the check, exactly if it stands at its maximum and has moved since |
| Uuid.ZeroComesOut | src/xxgame.com/component/uuid/uuid.go:18-21 | an interleaving of calls from the start in which id 0 comes out |
| Gps.AddPair | src/xxgame.com/component/gps/gps.go:30-52 | the scan that appends to its own list ends; every group that holds one user of the pair holds both, recorded at this distance, everything else about a group stays, and the pair gets one new group for each group apart from it, or one if there was none |
| Gps.GPSCoordinateAna | src/xxgame.com/component/gps/gps.go:18-57 | every close pair shares a group, every group is connected through close pairs, and each user of a group is recorded at the distance of its last close pair in the order compared |
| Gps.FarPairsRepeat | src/xxgame.com/component/gps/gps.go:36-51 | three close pairs, the others exactly as far apart as the threshold, give four groups, two of them equal |
| Gps.LinkedButApart | src/xxgame.com/component/gps/gps.go:18-57 | an input on which two users linked through close pairs share no group |
| GpsComponents.CoveredIffSpread | src/xxgame.com/component/gps/gps.go:18-57 | exactly when two users share a group: some close pair spreads to both over the pairs compared after it |
| GpsComponents.ChainedUsersShare | src/xxgame.com/component/gps/gps.go:18-57 | if everybody linked with an earlier user is close to an earlier user, two users share a group exactly if close pairs link them |
| RoundRobin.Client.PickRobin | src/xxgame.com/component/net/client/client.go:433-457 | picks the first live server in cyclic order with at most one round of probes, and fails exactly when none is live |
| RoundRobin.Client.PickMany | src/xxgame.com/component/net/client/client.go:433-457 | any number of messages in a row go to the live servers in cyclic order from the current position, round after round |
| RoundRobin.CycleRepeats | src/xxgame.com/component/net/client/client.go:440-445 | the picks are the same round over and over, cut off anywhere |
| RoundRobin.RoundIsFair | src/xxgame.com/component/net/client/client.go:440-445 | for any fixed set of live servers, a round has as many picks as there are live servers and visits each of them exactly once and no other |

## Left out

- Init: counts are unbounded integers; the 32-bit counters of the table cannot overflow for hands that fit in memory.
- Split: the branches are explored one after the other; the source explores them in goroutines and collects the outcomes in arrival order, which no caller depends on.
- PreAna3NP2WildCards: the wild card itself, which the source does not use either, and nil tiles are left out; tiles outside the four suits, on which the source indexes out of range, are excluded. The methods after it are stated for valid tiles.
- AnaWild3NP2CardsOpt2: the library sort is modelled by its result.
- AnalyzeWildCards and the parallel searches, whose goroutines share one result variable: the sequential searches are modelled instead.
- The analysers that return maps of possible tiles, SplitOpt, printing and timing.
- Recv: states the law for streams of frames that SendMsg produces; what the receiver does with other byte streams, the silence timeout and closing while receiving are left out.
- SendMsg: its checks and the write into the pipe are one step; the wait for room in the pipe is the outcome of that step.
- Pausing or resuming a repeating action: the resume drops the repetition, so there is no law to state beyond the steps themselves.
- Receive: a panic in a handler is recovered, as in release mode; in debug mode the source lets the process die.
- PausesConserveTime and the other timer laws treat time as what the clock returned; nothing relates a waiter's delay to the clock, so a waiter may fire at any moment.
- MainLoop: only its timer messages; the methods that send them append one message each, which a goroutine of its own writes to the channel, so that messages may be taken in any order.
- RecvOne: a response is assumed to belong to a session whose timer has been started, which the source relies on as well.
- DoDataOps and StartDataOps: the session id is new; after the ids wrap the source would overwrite a session that is still open, here a reused id is ignored. Checking the operations and encoding the body come before the session and are left out.
- GenID: one call is one step; the lemmas on concurrent calls take its check and its addition apart.
- GPSCoordinateAna: distance is an arbitrary function to real numbers; rounding and the trigonometric formula are left out.
- PickRobin: callers are sequential and the server list does not change.
- Sockets, dialling, listening, logging, configuration, protocol buffers, databases and the web server: input and output or code outside the repository. The package of generated protocol types is not part of this model.
- The object, connection and configuration maps, buffers, id conversions and the routine pool would only add easy members.

# Verified model of the elevator simulator

A Dafny model of the multi-threaded elevator simulator: the dispatcher thread, one worker thread per
elevator, the emergency and shutdown calls, the server's "go" command, and the table through which
several instances share their elevators. `dafny verify dfyconfig.toml` checks the whole project.

## How it is organised

The concurrent behaviour is a transition system. A state says where every thread stands in its code; an
action is one indivisible shared access of one thread. A run is any sequence of enabled actions, so the
theorems hold for every interleaving.

- `Domain.dfy` - directions, statuses, requests.
- `Dispatch.dfy` - the integer score of `findBestElevator`, the intended three-band order, the "go" search.
- `CarProtocol.dfy` - one elevator: the worker's program counter through wait, pop, legs, floor steps and
  doors, and the stores other threads may make at any moment.
- `SystemProtocol.dfy` - all elevators, the dispatcher, producers and `stop`.
- `Conservation.dfy`, `Fifo.dfy`, `WakeUps.dfy`, `Selection.dfy`, `Emergency.dfy`, `Travel.dfy`, `Reachability.dfy`,
  `Drain.dfy`, `Shutdown.dfy`, `Rotation.dfy`, `Estimates.dfy` - invariants and theorems about runs.
- `Witnesses.dfy` - runs from a fresh start in which a documented promise fails.
- `SyncProtocol.dfy`, `Convergence.dfy` - instances interleaving row upserts, table reads and merges while all
  their elevators go on by the elevator protocol.
- `Elevator.dfy`, `ElevatorController.dfy`, `ElevatorServer.dfy`, `DatabaseLogger.dfy` - the objects, with the
  source's fields and loops. An `Elevator` carries a ghost copy of its protocol state, and every statement of
  the worker is recorded as the protocol step it is, with arbitrary interference between statements.

Modelling decisions:

- The emergency flag, the status, `running` and the notifications are written without the queue mutex. Each
  such store is an action of its own, enabled at any time and in any order; this includes everything
  `emergencyStopActivate`, `emergencyStopRelease` and `stop` can do, from any number of threads.
- The wait predicates are read left to right, one variable per step, under the mutex; spurious wake-ups
  are allowed. A mutex held across steps is implied by the program counter of its holder.
- The dispatcher scans elevator by elevator, and a flag can flip between the look, the hand-over test and the
  push. Each look reads one elevator at one moment.
- Histories (`Log`, `accepted`, `dispatched`, `requeued`) are part of the state only to state theorems; no
  step depends on them.
- Scores are unbounded integers; `Dispatch.FitsIsExact` says exactly for which building sizes the penalised
  distance stays within `int`, and the scan theorems assume such a size.
- An emergency window opens when a set of the flag finds it clear. An elevator is undisturbed between two
  states when its flag is clear at the first, it is running at the second and no window was opened in between.

Where documentation and code differ, the model follows the code, and the exact condition is proved:

- docs/Design.md has a request queued while all elevators are in emergency. One for which the scan had already
  chosen an elevator is refused and lost instead; all others are kept, arrivals included. Work in a worker's
  hand can be aborted. Runs that lose a request are given.
- docs/Design.md has the nearest elevator chosen, and the lower id among equally near ones. The code ranks idle
  before not moving away before moving away, and only then by distance and list position. Within such a band
  ties go to the lower id, in every list the instances can reach; across bands they need not.
- The server can announce an elevator other than the one that comes.
- `Elevator::stop` waits for its worker, but a worker about to fall asleep can miss the notification.

## Model

| member | source | states |
|---|---|---|
| Dispatch.ScoreEncodesOrder | src/ElevatorController.cpp:198-206 | comparing two scores is comparing (idle, not moving away, moving away) and then distance; the three score intervals are disjoint |
| Dispatch.FitsIsExact | src/Elevator.cpp:177-190 | 3*(numFloors-1) fitting in int is necessary and sufficient for every in-range penalised distance to fit |
| Dispatch.LookExtendsScan | src/ElevatorController.cpp:192-210 | one scan iteration keeps: best so far is the first least unflagged elevator of the prefix, none iff all flagged |
| Dispatch.BestIsUnique | src/ElevatorController.cpp:188-213 | the specification of the scan determines its result |
| Dispatch.TieInBandGoesToLowerId | src/ElevatorController.cpp:192-210 | with ids ascending along the list, an unflagged elevator not worse in (band, distance) than the chosen one has a higher id |
| Dispatch.TieGoesToLowerIdIff | docs/Design.md:27 | all equally near unflagged elevators have a higher id than the chosen one if and only if each of them with a lower id is in its band |
| Dispatch.DocumentedChoiceIff | docs/Design.md:25-27 | the chosen elevator is the nearest unflagged one, first of equals, if and only if no unflagged elevator is in a better band than that one |
| Dispatch.NearestExtends | src/ElevatorServer.cpp:302-312 | one round of the "go" loop keeps: the pick is the first nearest idle or stopped elevator of the prefix |
| Dispatch.GoAgreesWithDispatcher | src/ElevatorServer.cpp:297-318 | the elevator announced by "go" is the one the dispatcher chooses if and only if it is unflagged and idle, or no unflagged one is idle and no earlier unflagged one stands on its floor |
| Dispatch.IdlePickIsHonoured | src/ElevatorServer.cpp:302-318 | an idle unflagged pick of "go" is always the dispatcher's choice |
| CarProtocol.FreshCarOk | src/Elevator.cpp:6-15 | a newly started elevator satisfies the invariant |
| CarProtocol.LegKeepsMotion | src/Elevator.cpp:114-147 | inside moveToFloor the heading matches the destination, floors stay in range, and STOPPED appears only at the destination |
| CarProtocol.WorkerKeepsMotion | src/Elevator.cpp:69-112 | the whole worker loop keeps position and status consistent |
| CarProtocol.WorkerKeepsFlow | src/Elevator.cpp:69-112 | handed over = served ++ in hand ++ queued, through every worker step |
| CarProtocol.CarNextKeepsInv | src/Elevator.cpp:30-67 | neither worker steps nor stores and pushes of other threads break the elevator's invariant |
| CarProtocol.ReachedCarOk | src/Elevator.cpp:69-147 | every state an elevator can reach satisfies it |
| SystemProtocol.NextOnCar | src/ElevatorController.cpp:166-184 | a system step does to one elevator nothing or exactly one of its own actions |
| SystemProtocol.SubmitAcceptsExactly | src/ElevatorController.cpp:118-127 | with the mutex free a request can join the queue if and only if 1 <= from <= numFloors and to is 0, a hall call, or in 1..numFloors |
| Conservation.DispatcherMoves | src/ElevatorController.cpp:144-186 | a dispatcher step neither drops nor copies a request: queue, hand and what it offers to elevators balance |
| Conservation.NextKeepsBalance | src/ElevatorController.cpp:116-186 | accepted = pending + dispatcher's hand + everything offered to elevators, through every action |
| Conservation.NextKeepsSplit | src/ElevatorController.cpp:169-170 | what an elevator was handed is its subsequence of the hand-overs, in order |
| Conservation.NextKeepsWf | src/ElevatorController.cpp:116-186 | only valid requests circulate, and every elevator stays in its invariant |
| Fifo.FirstLookSucceeds | src/ElevatorController.cpp:190-209 | an unflagged first elevator always beats the sentinel score |
| Fifo.NextKeepsQuietInv | src/ElevatorController.cpp:144-186 | until an emergency is raised nothing is put back and accepted = dispatched ++ hand ++ pending |
| WakeUps.NextKeepsAwake | src/ElevatorController.cpp:131-153 | asleep with work waiting means a notification is owed, through every action, although the requeue never notifies |
| WakeUps.NextKeepsNotStranded | src/ElevatorController.cpp:52-79 | after stop's notification the dispatcher neither sleeps nor is about to |
| WakeUps.HaltedDispatcherLeaves | src/ElevatorController.cpp:145-157 | with running cleared each dispatcher step comes nearer the exit, and no other step moves it away |
| Emergency.CarNextAborts | src/Elevator.cpp:84-105 | only opening an emergency window, or the one shutdown, can add a request bound to be aborted |
| Emergency.NextRejects | src/ElevatorController.cpp:166-170 | only opening a window can add a refused hand-over |
| Emergency.CarNextDooms | src/Elevator.cpp:125 | a request in a worker's hand becomes unable to complete exactly when the loop test fails short of the floor on a good leg |
| Emergency.LossIsExactlyThere | src/Elevator.cpp:55-58 | a step makes an elevator refuse a request if and only if the hand-over finds the flag set, and dooms one if and only if its worker's loop test fails short of the floor |
| Emergency.BoundedLoss | src/Elevator.cpp:44-105 | over any run from any state: at most one refusal per window opened during it, shut down or not, and at most one abort per window and one for a shutdown, besides those already bound to be lost |
| Emergency.LossDuringRun | src/Elevator.cpp:44-105 | in numbers, at most one of each kind was already bound to be lost |
| Emergency.FlaggedRun | src/Elevator.cpp:84-134 | while the flag stays set, floor moves, pops and pushes are limited to those already past their test |
| Emergency.FlaggedWorkerStaysAwake | src/Elevator.cpp:50-53 | while the flag stays set a worker that is awake does not fall asleep, so it notices the release, which notifies nobody |
| Travel.PathIsStraight | src/Elevator.cpp:129-134 | a leg enters floors one at a time, always towards its target |
| Travel.ItineraryAppends | src/Elevator.cpp:96-105 | serving one more request appends its trip from where the previous ones end |
| Travel.ItineraryLength | src/Elevator.cpp:96-105 | the floors entered number the sum of the distances to each pickup and destination |
| Travel.DistanceBound | src/Elevator.cpp:96-105 | that sum is at most 2*(numFloors-1) per request |
| Travel.ItineraryVisits | src/Elevator.cpp:96-105 | every route stands on the pickup floor of each of its requests, and from then on on its non-zero destination |
| Travel.CarNextKeepsCalm | src/Elevator.cpp:69-147 | never flagged nor halted: direction IDLE only at the destination, MOVING only on a leg, and no waking up without a request |
| Travel.CarNextKeepsOwnStatus | src/Elevator.cpp:119-145 | while no emergency call stores a status, the one shown is that of the worker's phase |
| Travel.PopExtendsPlan | src/Elevator.cpp:89-105 | taking a request adds exactly its trip, from where the previous one ends, to the floors entered and still ahead |
| Travel.CarNextKeepsPlan | src/Elevator.cpp:69-147 | no other step of a running, unflagged elevator changes what it has entered plus what lies ahead |
| Travel.CarNextKeepsRoute | src/Elevator.cpp:96-147 | so the plan since any moment has grown by exactly the itinerary of the requests taken since |
| Travel.CarNextKeepsUnspoiled | src/Elevator.cpp:96-147 | while running and unflagged no further request is missed |
| Selection.ScanPicksBest | src/ElevatorController.cpp:166-213 | with everything moving during the scan, the dispatcher offers its request to the lexicographically best unflagged elevator among those it saw, each as it was when looked at, and puts it back if and only if it saw all flagged |
| Reachability.EveryRequestIsSomewhere | src/ElevatorController.cpp:116-186 | in every reachable state the accepted requests, as a multiset, are those pending, in a hand, queued, completed, aborted or refused |
| Reachability.ElevatorIsFifo | src/Elevator.cpp:55-112 | each elevator serves what it was handed first come, first served, emergencies included |
| Reachability.DispatcherIsFifo | src/ElevatorController.cpp:144-186 | without an emergency, accepted = dispatched ++ dispatcher's hand ++ pending, as sequences |
| Reachability.LossPerWindow | src/Elevator.cpp:44-105 | since its start an elevator has refused at most one request per window and aborted at most one per window, and one more for a shutdown; without either it has lost none |
| Reachability.FlaggedElevatorFreezes | src/Elevator.cpp:44-147 | while the flag stays set: at most one floor entered, one request popped, one pushed, the rest of the queue in order |
| Reachability.NoLostWakeUp | src/ElevatorController.cpp:131-153 | a sleeping dispatcher with pending requests is owed a notification; a sleeping worker with a queue is about to be notified |
| Reachability.StopNeverStrandsDispatcher | src/ElevatorController.cpp:57-74 | asleep with running cleared, stop has not yet notified |
| Reachability.HaltedDispatcherIsNotBlocked | src/ElevatorController.cpp:70-79 | after that notification the dispatcher can step, or the worker whose mutex it needs can |
| Reachability.StopReachesDispatcher | src/ElevatorController.cpp:52-79 | it is out of its loop within E + 6 of its own steps, E the number of elevators |
| Reachability.StopEndsDispatcher | src/ElevatorController.cpp:52-79 | stop called in any reachable state: it can notify as soon as the mutex is free, and the dispatcher has left after E + 6 more of its steps |
| Reachability.PositionIsSafe | src/Elevator.cpp:114-147 | no interleaving takes an elevator off the building; throughout the movement loop direction is UP/DOWN exactly below/above the destination; STOPPED implies at the destination |
| Reachability.IdleDirectionMeansArrived | src/ElevatorServer.cpp:380 | for an elevator never flagged nor halted direction IDLE implies at the destination, and every served request completed |
| Reachability.StatusTellsPhase | src/Elevator.cpp:119-145 | never flagged nor halted: MOVING implies under way; if no emergency call stored a status meanwhile, under way implies MOVING, doors at work if and only if STOPPED, nothing in hand implies IDLE |
| Reachability.ExactTravel | src/Elevator.cpp:96-147 | between any two moments with nothing in hand, after an emergency or before one, an undisturbed elevator enters exactly the itinerary of the requests it serves, completes them all, and spends 1000 ms a floor and 2000 ms a door cycle |
| Drain.WorkerDescends | src/Elevator.cpp:69-147 | each worker step of a running, unflagged elevator lowers the measure, whatever it was doing when the flag was cleared |
| Drain.DispatcherDescends | src/ElevatorController.cpp:144-186 | so does each dispatcher step, even a scan begun during the emergency that still puts its request back |
| Drain.RecoveryWithinBound | docs/Design.md:71 | from any reachable state with everything running and unflagged, without further emergency or shutdown, the threads take at most 6*numFloors+E+32 steps per request outstanding or arriving (E elevators), plus constants per elevator, owed notification and spurious wake-up |
| Drain.RestMeansRecovered | docs/Design.md:71 | and when no thread can step, nothing is pending, queued or in hand, and nothing was lost but a request already cut short |
| Drain.DrainsWithinBound | src/ElevatorController.cpp:144-186 | from a fresh start the start-up allowance is 4 steps per elevator plus 3 |
| Drain.RestMeansDone | src/ElevatorController.cpp:144-186 | when no thread can step, all accepted requests were dispatched in order and each elevator completed all it was handed |
| Drain.SubmittedIsServed | src/ElevatorController.cpp:116-134 | and every request ever submitted, hall call or trip, is completed by an elevator that has stood on its pickup floor and then on its destination, if it has one |
| Drain.MovesWithinBound | src/Elevator.cpp:125-134 | all elevators together enter at most 2*(numFloors-1) floors per accepted request |
| Shutdown.HaltedWorkerWindsDown | src/Elevator.cpp:30-36 | once an elevator's running is clear, its worker is gone or asleep within 15 of its own steps plus two per notification, entering at most one more floor and taking at most one more request |
| Rotation.RotateByIsRotation | src/ElevatorController.cpp:159-183 | putting the head back k times is a rotation |
| Rotation.FullEmergencyRotatesQueue | src/ElevatorController.cpp:179-183 | with every elevator flagged and no arrivals, after k requests put back the queue is the original one rotated by k mod n, whatever else is interleaved |
| Rotation.FullEmergencyKeepsContents | docs/Design.md:28 | all flagged and no elevator chosen yet, with arrivals interleaved: the queue and the hand hold exactly the original requests and the arrivals, and nothing is handed over |
| Rotation.FullEmergencyRefusesExactly | docs/Design.md:28 | all flagged from some moment on: an elevator refuses a request if and only if it had been chosen by then and is no longer, and exactly the one then in the dispatcher's hand |
| Estimates.NextRequestIsReached | src/Elevator.cpp:96-104 | over any run in which an elevator with an empty queue stays undisturbed, the next request handed to it is picked up after exactly MovesToReach floors, and those floors are given |
| Estimates.DistanceIsLowerBound | src/Elevator.cpp:178 | the plain distance never exceeds the real travel |
| Estimates.EstimateIsSound | src/Elevator.cpp:177-190 | MovesToReach is the plain distance with nothing in hand; anywhere on the last leg it is the detour over the target, and the penalised estimate bounds it |
| Estimates.TravelMeetsEstimate | src/Elevator.cpp:177-190 | hence over runs: the floors entered until the pickup equal, or are bounded by, the estimate read at the start |
| Estimates.RestingEstimateIsExact | src/Elevator.cpp:177-190 | never flagged and nothing in hand: the estimate is exactly the floors entered until the pickup |
| Estimates.EstimateReadsPosition | src/Elevator.cpp:177-190 | in the movement loop the estimate is the plain distance, plus 2*(numFloors-1) exactly for floors on the far side of the elevator from its destination |
| Estimates.EstimateIsPlainUnlessMoving | src/Elevator.cpp:181 | shown as anything but MOVING, or with direction IDLE, it is the plain distance |
| Estimates.FloorAheadIsReached | src/Elevator.cpp:182-185 | over any undisturbed run, a floor between the elevator and its destination is entered after exactly the estimated number of floors, and not before |
| Estimates.FloorBehindComesLater | src/Elevator.cpp:182-187 | a floor behind is not entered before the destination, and the estimate covers the way there and back |
| Witnesses.AcceptedRequestCanBeRefused | docs/Design.md:28 | a reachable state with all elevators flagged whose only accepted request is refused in the next step and is nowhere else |
| Witnesses.AcceptedRequestCanBeAborted | src/Elevator.cpp:96-105 | a reachable state whose only accepted request was given up in the worker's hand and is nowhere else |
| Witnesses.StoppedPickCanBePassedOver | src/ElevatorServer.cpp:303-304 | a reachable state in which "go" announces a stopped elevator and the dispatcher sends another |
| Witnesses.LowerIdCanLoseTie | docs/Design.md:27 | a reachable state in which, of two equally near unflagged elevators, the one with the higher id is chosen |
| Witnesses.StopCanMissWorker | src/Elevator.cpp:35-36 | a reachable elevator whose worker sleeps on with running clear, stop's store and notification both past |
| SyncProtocol.SizeTestIsExact | src/ElevatorController.cpp:268 | after an instance's own upserts, more rows than elevators if and only if the table has an id it lacks |
| SyncProtocol.MergeIsExact | src/ElevatorController.cpp:268-286 | the merge keeps the list as a prefix and ids distinct, makes the id set the table's, puts every new elevator at rest, unflagged and running on the floor its row gives, and is idempotent |
| SyncProtocol.SizeTestNeedsOwnRows | src/ElevatorController.cpp:254-268 | without the instance's own rows in the table the size test can miss an elevator |
| SyncProtocol.SelectIsComplete | src/DatabaseLogger.cpp:282-296 | a read returns every row exactly once in ascending id order |
| SyncProtocol.WritePassIsExact | src/ElevatorController.cpp:254-262 | a write pass adds exactly the own ids, with each elevator's own state, and leaves other rows alone |
| Convergence.SyncNextKeepsOk | src/ElevatorController.cpp:252-290 | every interleaved step keeps ids distinct, within the known ids, and own rows in the table |
| Convergence.InstancesConverge | src/ElevatorController.cpp:252-290 | once all have written, each instance's next pass gives it exactly the union of ids, for good |
| Convergence.SyncNextIsSound | src/ElevatorController.cpp:252-290 | worker steps, emergency calls, pushes, upserts, reads and merges of any instance keep every elevator's invariant and every row on a floor |
| Convergence.FloorsStayInRange | src/ElevatorController.cpp:281 | so from fresh instances of equal numFloors no interleaving takes an elevator, own or merged, or a row off the building |
| Convergence.ListsStayInIdOrder | src/ElevatorController.cpp:269-284 | instances numbering from 0 keep their lists in id order through every merge |
| Convergence.TieBreakEverywhere | docs/Design.md:27 | so in every instance at any time ties within a band go to the lower id, and ties across bands exactly under the condition above |
| DatabaseLoggers.DatabaseLogger.SyncElevatorState | src/DatabaseLogger.cpp:244-252 | keyed upsert |
| DatabaseLoggers.DatabaseLogger.GetElevatorStates | src/DatabaseLogger.cpp:263-304 | the ordered read, as a loop over the rows |
| DatabaseLoggers.WrittenStateIsRead | src/DatabaseLogger.cpp:288-296 | a written state is read back with its direction and status |
| DatabaseLoggers.WritePassShows | src/ElevatorController.cpp:256-261 | after a write pass each elevator's row gives its floor, destination, direction and status, column by column and code by code, and the next read returns that row |
| Elevators.Elevator.constructor | src/Elevator.cpp:6-28 | a started elevator, idle on its floor |
| Elevators.Elevator.EmergencyStopActivate | src/Elevator.cpp:44-48 | its three effects are the protocol's, in order |
| Elevators.Elevator.EmergencyStopRelease | src/Elevator.cpp:50-53 | its two effects are the protocol's, in order |
| Elevators.Elevator.Stop | src/Elevator.cpp:30-36 | clears running and notifies, once |
| Elevators.Elevator.AddRequest | src/Elevator.cpp:55-67 | refuses under the flag, otherwise appends and notifies |
| Elevators.Elevator.CalculateDistance | src/Elevator.cpp:177-190 | equals the estimate of the dispatch specification; while under way, the plain distance plus 2*(numFloors-1) exactly for floors behind; otherwise plain when not MOVING |
| Elevators.Elevator.TestLoop | src/Elevator.cpp:125 | the loop test under interference; leaving short of the floor means the flag was set before, or an emergency or shutdown came meanwhile |
| Elevators.Elevator.StepFloor | src/Elevator.cpp:127-145 | one floor nearer, with the doors worked on arrival, after which direction and status are IDLE |
| Elevators.Elevator.MoveToFloor | src/Elevator.cpp:114-147 | under arbitrary interference never overshoots, and stops short only if flagged at the start or met by an emergency or shutdown on the way; on arrival direction is IDLE and status IDLE or EMERGENCY |
| Elevators.Elevator.WaitPredicate | src/Elevator.cpp:76-78 | goes on or falls asleep as the predicate, read under interference, says |
| Elevators.Elevator.PopRequest | src/Elevator.cpp:89-93 | takes the front of the queue |
| Elevators.Elevator.GoIdle | src/Elevator.cpp:106-110 | a round without a request leaves direction and status IDLE |
| Elevators.Elevator.ServeNext | src/Elevator.cpp:70-111 | one worker round is a sequence of protocol steps serving at most one request; completed means at its last floor, not completed means an emergency raised during this round, or a shutdown |
| ElevatorControllers.ElevatorController.constructor | src/ElevatorController.cpp:9-40 | elevators numbered from 0 on floor 1 |
| ElevatorControllers.ElevatorController.AddRequest | src/ElevatorController.cpp:116-134 | queues the request if and only if its pickup floor is in 1..numFloors and its destination is 0 or in 1..numFloors |
| ElevatorControllers.ElevatorController.FindBestElevator | src/ElevatorController.cpp:188-213 | the scan loop returns the lexicographically best unflagged elevator, the first of equals, and null iff all are flagged |
| ElevatorControllers.ElevatorController.DispatchNext | src/ElevatorController.cpp:159-184 | one round hands the oldest request to the best elevator only, or puts it at the back |
| ElevatorControllers.ElevatorController.EmergencyStop | src/ElevatorController.cpp:94-97 | flags every elevator and shows EMERGENCY, touching nothing else |
| ElevatorControllers.ElevatorController.ReleaseEmergencyStop | src/ElevatorController.cpp:105-108 | clears every flag and shows IDLE, touching nothing else |
| ElevatorControllers.ElevatorController.Stop | src/ElevatorController.cpp:52-68 | the first call clears running on the controller and every elevator, touching nothing else; a further one does nothing |
| ElevatorControllers.ElevatorController.GetElevatorStatuses | src/ElevatorController.cpp:215-229 | one tuple per elevator, in order |
| ElevatorControllers.ElevatorController.WriteRows | src/ElevatorController.cpp:254-262 | the write loop is a write pass of the protocol; with distinct ids each elevator's row then shows its fields |
| ElevatorControllers.ElevatorController.MergeStates | src/ElevatorController.cpp:268-286 | the nested merge loops compute the protocol's merge; each new elevator is idle, unflagged and running on the floor of a row with its id |
| ElevatorControllers.ElevatorController.SyncPass | src/ElevatorController.cpp:252-286 | after one pass the controller's ids are exactly the table's, its own rows show its own elevators, and each new elevator rests on the floor the table gives for its id |
| ElevatorServers.ElevatorServer.Nearest | src/ElevatorServer.cpp:297-312 | the search loop returns the first nearest idle or stopped elevator, or -1 if there is none |
| ElevatorServers.ElevatorServer.Go | src/ElevatorServer.cpp:285-321 | finds the first of the nearest elevators showing IDLE or STOPPED, if any, and queues a request from its floor |
| ElevatorServers.ElevatorServer.GoThenDispatch | src/ElevatorServer.cpp:297-318 | "go" followed by an undisturbed dispatcher round: the announced elevator comes if and only if it was announceable |

## Left out

- Sockets, client threads, command tokenising and response text; the terminal interface, the demo runner and the start-up code.
- The PostgreSQL connection, logging, timestamps and exceptions: table operations succeed atomically.
- Wall-clock time: sleeping is not a step; travel and door times are counted in the exact-travel theorem.
- Torn reads of several fields of one elevator within one look of the scan or one row written, and the unsynchronised growth of the elevator list while other threads walk it.
- The joins in `stop`, and starting again after `stop`. `Elevator::stop`, which notifies without the mutex, is not claimed to reach its worker; `Witnesses.StopCanMissWorker` shows that it can miss it.
- README.md has dispatch take the number of queued requests into account; the score does not read it, so nothing is stated.
- Status EMERGENCY is not claimed to persist while the flag is set: a worker between its stores overwrites it.
- Elevators.Elevator.AddRequest: assumes the queue mutex is free and no other thread acts between test and push; the protocol covers the race.
- ElevatorControllers.ElevatorController.DispatchNext: is one round without interference; rounds under interference are the protocol's dispatcher steps.
- ElevatorControllers.ElevatorController.SyncPass: is one pass without interference, on rows within the building; interleaved passes are the sync protocol's steps.
- ElevatorServers.ElevatorServer.Go: parsing and the reply are not modelled; the announced id is the result.
- The lock order and fairness of the scheduler: the drain theorem bounds steps and says what rest means, not that a thread is eventually scheduled.

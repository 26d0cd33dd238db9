/**
 Runs in which a promise of the documentation fails. All start with one
 accepted request and two elevators, of which the first is the nearer.
 */
module Witnesses {
  import opened Domain
  import Dispatch
  import opened CarProtocol
  import opened SystemProtocol
  import opened Reachability
  import opened Rotation

  const CALL := Request(2, 5, Up)

  /** `CALL` is accepted and not yet with an elevator; `c` is the first of the two. */
  function Early(pc: DispatcherPc, pending: seq<Request>, c: Car): System {
    System(10, true, pending, [c, Fresh(6)], pc, 1, false, [CALL], [], 0)
  }

  /** It has been pushed to the first elevator. */
  function Handed(c: Car): System {
    System(10, true, [], [c, Fresh(6)], Notify(0), 1, false, [CALL], [Handover(0, CALL)], 0)
  }

  // ----- Up to the hand-over -----

  lemma CallArrives()
    ensures Reachable(Early(Waiting(LoopHead), [CALL], Fresh(1)))
  {
    var s0 := System(10, true, [], [Fresh(1), Fresh(6)], Waiting(LoopHead), 0, false, [], [], 0);
    InitialIsReachable(s0);
    NextIsReachable(s0, Submit(CALL));
  }

  lemma DispatcherGoesOn(pc: DispatcherPc, pending: seq<Request>, pc': DispatcherPc, pending': seq<Request>)
    requires Reachable(Early(pc, pending, Fresh(1))) && Enabled(Early(pc, pending, Fresh(1)), Action.Dispatch)
    requires DispatcherStep(Early(pc, pending, Fresh(1))) == Early(pc', pending', Fresh(1))
    ensures Reachable(Early(pc', pending', Fresh(1)))
  {
    NextIsReachable(Early(pc, pending, Fresh(1)), Action.Dispatch);
  }

  lemma CallIsTaken()
    ensures Reachable(Early(Scan(CALL, 0, Dispatch.START), [], Fresh(1)))
  {
    CallArrives();
    DispatcherGoesOn(Waiting(LoopHead), [CALL], Waiting(CheckRunning), [CALL]);
    DispatcherGoesOn(Waiting(CheckRunning), [CALL], Waiting(CheckPending), [CALL]);
    DispatcherGoesOn(Waiting(CheckPending), [CALL], Waiting(Recheck), [CALL]);
    DispatcherGoesOn(Waiting(Recheck), [CALL], Take, [CALL]);
    DispatcherGoesOn(Take, [CALL], Scan(CALL, 0, Dispatch.START), []);
  }

  lemma CallIsOffered()
    ensures Reachable(Early(Offer(CALL, 0), [], Fresh(1)))
  {
    CallIsTaken();
    var seen := Dispatch.Cursor(Some(0), -9);
    DispatcherGoesOn(Scan(CALL, 0, Dispatch.START), [], Scan(CALL, 1, seen), []);
    DispatcherGoesOn(Scan(CALL, 1, seen), [], Scan(CALL, 2, seen), []);
    DispatcherGoesOn(Scan(CALL, 2, seen), [], Offer(CALL, 0), []);
  }

  lemma CallIsHanded()
    ensures Reachable(Handed(CarNext(Fresh(1), Accept(CALL))))
  {
    CallIsOffered();
    DispatcherGoesOn(Offer(CALL, 0), [], Push(CALL, 0), []);
    NextIsReachable(Early(Push(CALL, 0), [], Fresh(1)), Action.Dispatch);
  }

  // ----- A refused request -----

  /** Both elevators are flagged while the first is about to be offered the request. */
  function Alarmed(): System {
    Early(Offer(CALL, 0), [], Fresh(1)).(cars := [CarNext(Fresh(1), RaiseFlag), CarNext(Fresh(6), RaiseFlag)])
  }

  lemma AllAreFlagged()
    ensures Reachable(Alarmed())
  {
    CallIsOffered();
    var s0 := Early(Offer(CALL, 0), [], Fresh(1));
    NextIsReachable(s0, OnCar(0, RaiseFlag));
    var s1 := Next(s0, OnCar(0, RaiseFlag));
    NextIsReachable(s1, OnCar(1, RaiseFlag));
    assert s1.cars[1 := CarNext(Fresh(6), RaiseFlag)] == Alarmed().cars;
  }

  /**
   docs/Design.md has a request queued while all elevators are in emergency. If
   the flags went up between the scan and the hand-over, it is lost instead.
   */
  lemma AcceptedRequestCanBeRefused()
    ensures exists s: System :: Reachable(s) && AllFlagged(s) && |s.accepted| == 1 && DispatcherHand(s.pc) == s.accepted
                                && Reachable(DispatcherStep(s)) && Nowhere(DispatcherStep(s))
                                && DispatcherStep(s).cars[0].log.rejected == s.accepted
  {
    var s := Alarmed();
    AllAreFlagged();
    NextIsReachable(s, Action.Dispatch);
    var t := Next(s, Action.Dispatch);
    assert t.cars == [CarNext(CarNext(Fresh(1), RaiseFlag), Refuse(CALL)), CarNext(Fresh(6), RaiseFlag)];
    assert Reachable(s) && AllFlagged(s) && t == DispatcherStep(s) && Nowhere(t);
  }

  /** No request is pending, queued or in any hand. */
  ghost predicate Nowhere(s: System) {
    && s.pending == [] && DispatcherHand(s.pc) == []
    && |s.cars| == 2 && forall e :: 0 <= e < 2 ==> s.cars[e].queue == [] && InHand(s.cars[e].pc) == []
  }

  // ----- The first elevator sets out -----

  lemma ElevatorGoesOn(c: Car, a: CarAction, c': Car)
    requires Reachable(Handed(c)) && CarEnabled(c, a, 10) && !a.Accept? && !a.Refuse? && CarNext(c, a) == c'
    ensures Reachable(Handed(c'))
  {
    NextIsReachable(Handed(c), OnCar(0, a));
    assert [c, Fresh(6)][0 := c'] == [c', Fresh(6)];
  }

  /** The first elevator with `CALL` in its log, at any point of the worker's code. */
  function First(pc: WorkerPc, floor: int, dest: int, d: Direction, st: Status, flag: bool, queue: seq<Request>): Car {
    Car(floor, dest, d, st, flag, true, queue, pc,
        Log([CALL], [], [], if floor == 2 then [2] else [], 0, if flag then 1 else 0))
  }

  lemma WorkerWakes()
    ensures Reachable(Handed(First(Polling(TestRunning), 1, 1, Direction.Idle, Status.Idle, false, [CALL])))
  {
    CallIsHanded();
    var c := First(Polling(Head), 1, 1, Direction.Idle, Status.Idle, false, [CALL]);
    assert CarNext(Fresh(1), Accept(CALL)) == c;
    ElevatorGoesOn(c, Work, c.(pc := Polling(WaitRunning)));
    ElevatorGoesOn(c.(pc := Polling(WaitRunning)), Work, c.(pc := Polling(WaitFlag)));
    ElevatorGoesOn(c.(pc := Polling(WaitFlag)), Work, c.(pc := Polling(WaitQueue)));
    ElevatorGoesOn(c.(pc := Polling(WaitQueue)), Work, c.(pc := Polling(TestRunning)));
  }

  lemma CallIsPopped()
    ensures Reachable(Handed(First(Pickup(CALL), 1, 1, Direction.Idle, Status.Idle, false, [])))
  {
    WorkerWakes();
    var c := First(Polling(TestRunning), 1, 1, Direction.Idle, Status.Idle, false, [CALL]);
    ElevatorGoesOn(c, Work, c.(pc := Polling(TestFlag)));
    ElevatorGoesOn(c.(pc := Polling(TestFlag)), Work, c.(pc := Pop));
    ElevatorGoesOn(c.(pc := Pop), Work, c.(pc := Pickup(CALL), queue := []));
  }

  const LEG := Leg(CALL, 2, false, false)

  lemma ElevatorSetsOut()
    ensures Reachable(Handed(First(OnLeg(LoopTest, LEG), 1, 2, Up, Moving, false, [])))
  {
    CallIsPopped();
    var c := First(Pickup(CALL), 1, 1, Direction.Idle, Status.Idle, false, []);
    ElevatorGoesOn(c, Work, c.(pc := OnLeg(SetDirection, LEG)));
    ElevatorGoesOn(c.(pc := OnLeg(SetDirection, LEG)), Work, c.(pc := OnLeg(SetStatus, LEG), direction := Up));
    ElevatorGoesOn(c.(pc := OnLeg(SetStatus, LEG), direction := Up), Work,
                   c.(pc := OnLeg(SetDestination, LEG), direction := Up, status := Moving));
    ElevatorGoesOn(c.(pc := OnLeg(SetDestination, LEG), direction := Up, status := Moving), Work,
                   First(OnLeg(LoopTest, LEG), 1, 2, Up, Moving, false, []));
  }

  // ----- A stopped elevator passed over -----

  ghost function Views(s: System): (views: seq<Dispatch.View>)
    ensures |views| == |s.cars| && forall k :: 0 <= k < |views| ==> views[k] == Seen(s.cars[k], k)
  {
    seq(|s.cars|, k requires 0 <= k < |s.cars| => Seen(s.cars[k], k))
  }

  lemma ElevatorOpensDoors()
    ensures Reachable(Handed(First(OnLeg(DoorsDirection, LEG), 2, 2, Up, Stopped, false, [])))
  {
    ElevatorSetsOut();
    var c := First(OnLeg(LoopTest, LEG), 1, 2, Up, Moving, false, []);
    ElevatorGoesOn(c, Work, c.(pc := OnLeg(LoopRunning, LEG)));
    ElevatorGoesOn(c.(pc := OnLeg(LoopRunning, LEG)), Work, c.(pc := OnLeg(FloorStep, LEG)));
    ElevatorGoesOn(c.(pc := OnLeg(FloorStep, LEG)), Work,
                   First(OnLeg(DoorsStopped, LEG), 2, 2, Up, Moving, false, []));
    ElevatorGoesOn(First(OnLeg(DoorsStopped, LEG), 2, 2, Up, Moving, false, []), Work,
                   First(OnLeg(DoorsDirection, LEG), 2, 2, Up, Stopped, false, []));
  }

  /**
   With its doors open the first elevator is what "go" announces for its own
   floor, while the dispatcher sends the idle one four floors away.
   */
  lemma StoppedPickCanBePassedOver()
    ensures exists s: System :: Reachable(s) && |s.cars| == 2
                                && Dispatch.IsNearest(Views(s), 2, Some(0))
                                && Dispatch.IsBest(Views(s), Views(s)[0].floor, Some(1))
  {
    ElevatorOpensDoors();
    var s := Handed(First(OnLeg(DoorsDirection, LEG), 2, 2, Up, Stopped, false, []));
    var views := Views(s);
    assert views[0] == Dispatch.View(0, 2, Up, Stopped, false);
    assert views[1] == Dispatch.View(1, 6, Direction.Idle, Status.Idle, false);
    assert Dispatch.IsNearest(views, 2, Some(0)) && Dispatch.IsBest(views, views[0].floor, Some(1));
  }

  /**
   In the same state a request from floor 4 finds both elevators two floors away,
   and goes to the one with the higher id.
   */
  lemma LowerIdCanLoseTie()
    ensures exists s: System :: Reachable(s) && |s.cars| == 2
                                && Dispatch.IsBest(Views(s), 4, Some(1)) && Dispatch.Rival(Views(s), 4, 1, 0)
                                && Views(s)[0].id < Views(s)[1].id
  {
    ElevatorOpensDoors();
    var s := Handed(First(OnLeg(DoorsDirection, LEG), 2, 2, Up, Stopped, false, []));
    var views := Views(s);
    assert views[0] == Dispatch.View(0, 2, Up, Stopped, false);
    assert views[1] == Dispatch.View(1, 6, Direction.Idle, Status.Idle, false);
    assert Dispatch.IsBest(views, 4, Some(1)) && Dispatch.Rival(views, 4, 1, 0);
  }

  // ----- An aborted request -----

  lemma LegIsCutShort()
    ensures Reachable(Handed(First(Deliver(CALL, true), 1, 2, Up, Moving, true, [])))
  {
    ElevatorSetsOut();
    var c := First(OnLeg(LoopTest, LEG), 1, 2, Up, Moving, false, []);
    ElevatorGoesOn(c, RaiseFlag, First(OnLeg(LoopTest, LEG), 1, 2, Up, Moving, true, []));
    ElevatorGoesOn(First(OnLeg(LoopTest, LEG), 1, 2, Up, Moving, true, []), Work,
                   First(Deliver(CALL, true), 1, 2, Up, Moving, true, []));
  }

  const LAST := Leg(CALL, 5, true, true)

  /** The leg cut short is not retried, nor is the next one: an emergency aborts the request in hand. */
  lemma AcceptedRequestCanBeAborted()
    ensures exists s: System :: Reachable(s) && |s.accepted| == 1 && Nowhere(s)
                                && s.cars[0].log.served == [Outcome(s.accepted[0], false)]
  {
    LegIsCutShort();
    var c := First(Deliver(CALL, true), 1, 2, Up, Moving, true, []);
    ElevatorGoesOn(c, Work, c.(pc := OnLeg(SetDirection, LAST)));
    ElevatorGoesOn(c.(pc := OnLeg(SetDirection, LAST)), Work, c.(pc := OnLeg(SetStatus, LAST)));
    ElevatorGoesOn(c.(pc := OnLeg(SetStatus, LAST)), Work, c.(pc := OnLeg(SetDestination, LAST)));
    ElevatorGoesOn(c.(pc := OnLeg(SetDestination, LAST)), Work, c.(pc := OnLeg(LoopTest, LAST), dest := 5));
    var c' := Finish(c.(dest := 5), CALL, false);
    ElevatorGoesOn(c.(pc := OnLeg(LoopTest, LAST), dest := 5), Work, c');
    assert Reachable(Handed(c')) && Nowhere(Handed(c')) && c'.log.served == [Outcome(CALL, false)];
  }

  // ----- A worker missed by stop -----

  /**
   `Elevator::stop` notifies without taking the mutex: between the worker's read
   of `running` and its falling asleep both stop's store and its notification can
   pass unnoticed, and the worker sleeps on with `running` clear.
   */
  lemma StopCanMissWorker()
    ensures exists s: System :: Reachable(s) && |s.cars| == 1 && s.cars[0].running
                                && var t := Run(s, [OnCar(0, Halt), OnCar(0, Rouse), OnCar(0, Work), OnCar(0, Work)]);
                                   Reachable(t) && |t.cars| == 1 && !t.cars[0].running
                                   && t.cars[0].pc == Polling(Asleep)
  {
    var c := Fresh(1);
    assert Initial(Single(c));
    InitialIsReachable(Single(c));
    SingleGoesOn(c, Work, c.(pc := Polling(WaitRunning)));
    SingleGoesOn(c.(pc := Polling(WaitRunning)), Work, c.(pc := Polling(WaitFlag)));
    StopPassesUnnoticed(c.(pc := Polling(WaitFlag)));
    var s := Single(c.(pc := Polling(WaitFlag)));
    assert Reachable(s) && |s.cars| == 1 && s.cars[0].running;
  }

  /** One elevator and nothing to do. */
  function Single(c: Car): System {
    System(10, true, [], [c], Waiting(LoopHead), 0, false, [], [], 0)
  }

  lemma SingleGoesOn(c: Car, a: CarAction, c': Car)
    requires CarEnabled(c, a, 10) && !a.Accept? && !a.Refuse? && CarNext(c, a) == c'
    ensures Next(Single(c), OnCar(0, a)) == Single(c')
    ensures Reachable(Single(c)) ==> Reachable(Single(c'))
  {
    assert [c][0 := c'] == [c'];
    if Reachable(Single(c)) {
      NextIsReachable(Single(c), OnCar(0, a));
    }
  }

  lemma RunStarts(s: System, a: Action, rest: seq<Action>)
    ensures Run(s, [a] + rest) == Run(Next(s, a), rest)
  {
    assert ([a] + rest)[1..] == rest;
  }

  lemma StopPassesUnnoticed(c: Car)
    requires Reachable(Single(c)) && c == Fresh(1).(pc := Polling(WaitFlag))
    ensures var t := Run(Single(c), [OnCar(0, Halt), OnCar(0, Rouse), OnCar(0, Work), OnCar(0, Work)]);
            Reachable(t) && |t.cars| == 1 && !t.cars[0].running && t.cars[0].pc == Polling(Asleep)
  {
    var h := c.(running := false);
    SingleGoesOn(c, Halt, h);
    SingleGoesOn(h, Rouse, h);
    SingleGoesOn(h, Work, h.(pc := Polling(WaitQueue)));
    SingleGoesOn(h.(pc := Polling(WaitQueue)), Work, h.(pc := Polling(Asleep)));
    hide Next, Reachable, Single, Run;
    RunStarts(Single(c), OnCar(0, Halt), [OnCar(0, Rouse), OnCar(0, Work), OnCar(0, Work)]);
    RunStarts(Single(h), OnCar(0, Rouse), [OnCar(0, Work), OnCar(0, Work)]);
    RunStarts(Single(h), OnCar(0, Work), [OnCar(0, Work)]);
    RunStarts(Single(h.(pc := Polling(WaitQueue))), OnCar(0, Work), []);
    RunStays(Single(h.(pc := Polling(Asleep))));
    assert [OnCar(0, Halt)] + [OnCar(0, Rouse), OnCar(0, Work), OnCar(0, Work)]
        == [OnCar(0, Halt), OnCar(0, Rouse), OnCar(0, Work), OnCar(0, Work)];
    assert [OnCar(0, Rouse)] + [OnCar(0, Work), OnCar(0, Work)] == [OnCar(0, Rouse), OnCar(0, Work), OnCar(0, Work)];
    assert [OnCar(0, Work)] + [OnCar(0, Work)] == [OnCar(0, Work), OnCar(0, Work)];
    assert [OnCar(0, Work)] + [] == [OnCar(0, Work)];
    SingleCar(h.(pc := Polling(Asleep)));
  }

  lemma SingleCar(c: Car)
    ensures Single(c).cars == [c]
  {
  }

  lemma RunStays(s: System)
    ensures Run(s, []) == s
  {
  }
}

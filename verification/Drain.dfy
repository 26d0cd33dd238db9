/**
 With no elevator flagged - from the start, or once an emergency is cleared -
 and no shutdown, the system runs dry within a bound on its steps.
 */
module Drain {
  import opened Domain
  import opened CarProtocol
  import opened SystemProtocol
  import opened Conservation
  import opened WakeUps
  import opened Fifo
  import opened Travel
  import opened Emergency
  import opened Reachability

  /** A step of one of the program's own threads that brings work forward. */
  predicate Internal(a: Action) {
    a.Dispatch? || a.NotifyDispatcher? || (a.OnCar? && a.act.Work?)
  }

  /** Anything but an emergency or a shutdown. */
  predicate Peaceful(a: Action) {
    !a.HaltController? && !(a.OnCar? && (a.act.RaiseFlag? || a.act.Halt?))
  }

  // ----- The measure -----

  /** Worker steps that one queued request can cause. */
  function PerQueued(numFloors: nat): nat {
    6 * numFloors + 17
  }

  function LegRank(c: Car, at: LegPoint, l: Leg): int {
    var d := Distance(c.floor, l.target);
    match at
    case SetDirection => 3 * d + 7
    case SetStatus => 3 * d + 6
    case SetDestination => 3 * d + 5
    case LoopTest => if d == 0 then 1 else 3 * d + 4
    case LoopRunning => 3 * d + 3
    case FloorStep => 3 * d + 2
    case DoorsStopped => 4
    case DoorsDirection => 3
    case DoorsIdle => 2
  }

  /** Past the wait with an empty queue, left over from an emergency, the worker takes one idle turn. */
  function PollRank(at: PollPoint, empty: bool): int {
    match at
    case Head => 4
    case WaitRunning => 3
    case WaitFlag => 2
    case WaitQueue => 1
    case Asleep => 0
    case TestRunning => if empty then 9 else 0
    case TestFlag => if empty then 8 else -1
  }

  function CarRank(c: Car, numFloors: nat): int {
    match c.pc
    case Polling(at) => PollRank(at, c.queue == [])
    case Pop => if c.queue == [] then 7 else -2
    case IdleDirection => 6
    case IdleStatus => 5
    case Pickup(_) => 6 * numFloors + 14
    case Deliver(_, _) => 3 * numFloors + 9
    case OnLeg(at, l) => LegRank(c, at, l) + if l.delivering then 4 else 3 * numFloors + 9
    case Exit => 0
  }

  function Times(n: nat, k: nat): (t: nat)
    ensures n > 0 ==> t >= k
  {
    if n == 0 then 0 else k + Times(n - 1, k)
  }

  function CarMeasure(c: Car, numFloors: nat): int {
    CarRank(c, numFloors) + Times(|c.queue|, PerQueued(numFloors))
  }

  lemma LegDescends(c: Car, at: LegPoint, l: Leg, numFloors: nat)
    requires c.pc == OnLeg(at, l) && MotionInv(c, numFloors) && Free(c)
    ensures CarRank(LegStep(c, at, l), numFloors) < CarRank(c, numFloors)
    ensures LegStep(c, at, l).queue == c.queue
  {
  }

  lemma WorkerDescends(c: Car, numFloors: nat)
    requires MotionInv(c, numFloors) && Free(c) && CarEnabled(c, Work, numFloors)
    ensures CarMeasure(WorkerStep(c), numFloors) < CarMeasure(c, numFloors)
  {
    match c.pc
    case OnLeg(at, l) => LegDescends(c, at, l, numFloors);
    case Polling(_) =>
    case Pop => PopDescends(c, numFloors);
    case Pickup(_) =>
    case Deliver(_, _) =>
    case _ =>
  }

  lemma PopDescends(c: Car, numFloors: nat)
    requires c.pc.Pop?
    ensures CarMeasure(WorkerStep(c), numFloors) < CarMeasure(c, numFloors)
  {
    if c.queue != [] {
      assert |WorkerStep(c).queue| == |c.queue| - 1;
    }
  }

  lemma CarMeasureNonNegative(c: Car, numFloors: nat)
    ensures CarMeasure(c, numFloors) >= 0
  {
  }

  function SumCars(cars: seq<Car>, numFloors: nat): int {
    if cars == [] then 0 else CarMeasure(cars[0], numFloors) + SumCars(cars[1..], numFloors)
  }

  lemma {:induction false} SumUpdate(cars: seq<Car>, e: nat, c: Car, numFloors: nat)
    requires e < |cars|
    ensures SumCars(cars[e := c], numFloors)
            == SumCars(cars, numFloors) + CarMeasure(c, numFloors) - CarMeasure(cars[e], numFloors)
  {
    if e == 0 {
      assert cars[e := c][1..] == cars[1..];
    } else {
      assert cars[e := c][1..] == cars[1..][e - 1 := c];
      SumUpdate(cars[1..], e - 1, c, numFloors);
    }
  }

  lemma {:induction false} SumNonNegative(cars: seq<Car>, numFloors: nat)
    ensures SumCars(cars, numFloors) >= 0
  {
    if cars != [] {
      CarMeasureNonNegative(cars[0], numFloors);
      SumNonNegative(cars[1..], numFloors);
    }
  }

  /** Steps that one pending request can cause, dispatcher and worker together. */
  function PerPending(s: System): nat {
    PerQueued(s.numFloors) + |s.cars| + 12
  }

  /** A scan that has seen only flagged elevators so far may still put its request back, once. */
  function DispatcherRank(s: System): int {
    match s.pc
    case Waiting(at) =>
      (match at case LoopHead => 3 case CheckRunning => 2 case CheckPending => 1 case Dormant => 0 case Recheck => 0)
    case Take => -1
    case Scan(_, k, c) =>
      (if k > 0 && c.best.None? then PerPending(s) + 5 else PerQueued(s.numFloors) + 10) + |s.cars| - k
    case Offer(_, _) => PerQueued(s.numFloors) + 9
    case Push(_, _) => PerQueued(s.numFloors) + 8
    case Notify(_) => 7
    case Requeue(_) => PerPending(s) + 4
    case Left => 0
  }

  function Measure(s: System): int {
    DispatcherRank(s) + Times(|s.pending|, PerPending(s)) + 3 * s.owing + SumCars(s.cars, s.numFloors)
  }

  // ----- The states it applies to -----

  /** Everything is running and no flag is set, whatever happened before. */
  predicate InService(s: System) {
    s.running && forall e :: 0 <= e < |s.cars| ==> Free(s.cars[e])
  }

  lemma NextStaysInService(s: System, a: Action)
    requires InService(s) && Peaceful(a)
    ensures InService(Next(s, a))
  {
    NextKeepsSizes(s, a);
    forall e | 0 <= e < |s.cars|
      ensures Free(Next(s, a).cars[e])
    {
      PeaceKeepsFree(s, a, e);
    }
  }

  lemma PeaceKeepsFree(s: System, a: Action, e: nat)
    requires e < |s.cars| && Free(s.cars[e]) && Peaceful(a)
    ensures |Next(s, a).cars| == |s.cars|
    ensures Free(Next(s, a).cars[e]) && Next(s, a).cars[e].log.windows == s.cars[e].log.windows
  {
    NextOnCar(s, a, e);
    var act := ActionOn(s, a, e);
    if act.Some? && act.value.Work? {
      WorkerKeepsFlags(s.cars[e]);
    }
  }

  // ----- Every internal step brings the measure down -----

  lemma ChangeCarMeasure(s: System, e: nat, a: CarAction)
    requires e < |s.cars|
    ensures SumCars(ChangeCar(s, e, a).cars, s.numFloors)
            == SumCars(s.cars, s.numFloors) + CarMeasure(CarNext(s.cars[e], a), s.numFloors)
               - CarMeasure(s.cars[e], s.numFloors)
  {
    SumUpdate(s.cars, e, CarNext(s.cars[e], a), s.numFloors);
  }

  lemma AcceptMeasure(c: Car, r: Request, numFloors: nat)
    requires !HoldsMutex(c.pc)
    ensures CarMeasure(CarNext(c, Accept(r)), numFloors) == CarMeasure(c, numFloors) + PerQueued(numFloors)
  {
  }

  lemma RouseMeasure(c: Car, numFloors: nat)
    ensures CarMeasure(CarNext(c, Rouse), numFloors) <= CarMeasure(c, numFloors) + 3
  {
  }

  lemma HandOverDescends(s: System)
    requires PcInRange(s) && Enabled(s, Action.Dispatch) && (s.pc.Push? || s.pc.Notify?)
    ensures Measure(DispatcherStep(s)) < Measure(s)
  {
    if s.pc.Push? {
      ChangeCarMeasure(s, s.pc.e, Accept(s.pc.hand));
      AcceptMeasure(s.cars[s.pc.e], s.pc.hand, s.numFloors);
    } else {
      ChangeCarMeasure(s, s.pc.e, Rouse);
      RouseMeasure(s.cars[s.pc.e], s.numFloors);
    }
  }

  /** What the descent needs of a state in service. */
  ghost predicate Flowing(s: System) {
    && s.running && Busy(s) && PcInRange(s)
    && (s.pc.Offer? ==> !s.cars[s.pc.e].flag)
    && (s.pc.Scan? && s.pc.k == 0 ==> |s.cars| > 0 && DispatcherStep(s).pc.cursor.best.Some?)
  }

  lemma ServiceFlows(s: System)
    requires Safe(s) && InService(s)
    ensures Flowing(s)
  {
    if s.pc.Scan? && s.pc.k == 0 {
      assert CarInv(s.cars[0], s.numFloors);
      assert s.pc.hand in DispatcherHand(s.pc);
      FirstLookSucceeds(s.cars[0], s.pc.hand.fromFloor, s.numFloors);
    }
  }

  lemma DispatcherDescends(s: System)
    requires Flowing(s) && Enabled(s, Action.Dispatch)
    ensures Measure(DispatcherStep(s)) < Measure(s)
  {
    if s.pc.Push? || s.pc.Notify? {
      HandOverDescends(s);
    } else if s.pc.Take? {
      assert |DispatcherStep(s).pending| == |s.pending| - 1;
    } else if s.pc.Requeue? {
      assert |DispatcherStep(s).pending| == |s.pending| + 1;
    } else {
      assert DispatcherStep(s).cars == s.cars && DispatcherStep(s).pending == s.pending;
      match s.pc
      case Waiting(_) =>
      case Scan(_, _, _) =>
      case _ =>
    }
  }

  /** What an external step may add, at `perRequest` for each submission. */
  function StepCost(a: Action, perRequest: nat): nat {
    match a
    case Submit(_) => perRequest
    case RouseDispatcher => 3
    case OnCar(_, act) => if act.Rouse? then 3 else 0
    case _ => 0
  }

  lemma StoresKeepMeasure(c: Car, a: CarAction, numFloors: nat)
    requires a.LowerFlag? || a.StoreStatus?
    ensures CarMeasure(CarNext(c, a), numFloors) == CarMeasure(c, numFloors)
  {
  }

  lemma OnCarMeasure(s: System, e: nat, act: CarAction)
    requires e < |s.cars| && MotionInv(s.cars[e], s.numFloors) && Free(s.cars[e])
    requires Enabled(s, OnCar(e, act)) && Peaceful(OnCar(e, act))
    ensures Measure(Next(s, OnCar(e, act))) + (if act.Work? then 1 else 0) <= Measure(s) + StepCost(OnCar(e, act), 0)
  {
    ChangeCarMeasure(s, e, act);
    if act.Work? {
      WorkerDescends(s.cars[e], s.numFloors);
    } else if act.Rouse? {
      RouseMeasure(s.cars[e], s.numFloors);
    } else {
      StoresKeepMeasure(s.cars[e], act, s.numFloors);
    }
  }

  lemma SubmitMeasure(s: System, r: Request)
    ensures Measure(Next(s, Submit(r))) <= Measure(s) + PerPending(s) + 3
  {
  }

  lemma StepMeasure(s: System, a: Action)
    requires Safe(s) && InService(s) && Enabled(s, a) && Peaceful(a)
    ensures Measure(Next(s, a)) + (if Internal(a) then 1 else 0) <= Measure(s) + StepCost(a, PerPending(s) + 3)
  {
    hide Safe;
    match a
    case Dispatch =>
      ServiceFlows(s);
      DispatcherDescends(s);
    case OnCar(e, act) =>
      SafeCarInv(s, e);
      OnCarMeasure(s, e, act);
    case Submit(r) => SubmitMeasure(s, r);
    case _ =>
  }

  // ----- Whole runs -----

  function InternalSteps(run: seq<Action>): nat {
    if run == [] then 0 else (if Internal(run[0]) then 1 else 0) + InternalSteps(run[1..])
  }

  function Submits(run: seq<Action>): nat {
    if run == [] then 0 else (if run[0].Submit? then 1 else 0) + Submits(run[1..])
  }

  /** Notifications without a reason of their own: spurious wake-ups and the broadcasts of emergency calls. */
  function Rouses(run: seq<Action>): nat {
    if run == [] then 0
    else (if run[0].RouseDispatcher? || (run[0].OnCar? && run[0].act.Rouse?) then 1 else 0) + Rouses(run[1..])
  }

  predicate PeacefulRun(run: seq<Action>)
    decreases |run|
  {
    run == [] || (Peaceful(run[0]) && PeacefulRun(run[1..]))
  }

  function RunCost(run: seq<Action>, perRequest: nat): nat {
    if run == [] then 0 else StepCost(run[0], perRequest) + RunCost(run[1..], perRequest)
  }

  /** A potential that every internal step pays from bounds the internal steps of a run. */
  lemma {:induction false} PotentialBoundsRun(s: System, run: seq<Action>, inv: System -> bool,
                                              potential: System -> int, perRequest: nat)
    requires inv(s) && Feasible(s, run) && PeacefulRun(run)
    requires forall t: System, a: Action :: inv(t) && Enabled(t, a) && Peaceful(a) ==>
               && inv(Next(t, a))
               && potential(Next(t, a)) + (if Internal(a) then 1 else 0) <= potential(t) + StepCost(a, perRequest)
    ensures inv(Run(s, run))
    ensures InternalSteps(run) + potential(Run(s, run)) <= potential(s) + RunCost(run, perRequest)
    decreases |run|
  {
    if run != [] {
      PotentialBoundsRun(Next(s, run[0]), run[1..], inv, potential, perRequest);
    }
  }

  lemma {:induction false} RunCostSplits(run: seq<Action>, perRequest: nat)
    ensures RunCost(run, perRequest) == Submits(run) * perRequest + 3 * Rouses(run)
    decreases |run|
  {
    if run != [] {
      RunCostSplits(run[1..], perRequest);
      if run[0].Submit? {
        OneMore(perRequest, Submits(run));
      }
    }
  }

  lemma RunMeasure(s: System, run: seq<Action>)
    requires Safe(s) && InService(s) && Feasible(s, run) && PeacefulRun(run)
    ensures Safe(Run(s, run)) && InService(Run(s, run))
    ensures InternalSteps(run) + Measure(Run(s, run)) <= Measure(s) + RunCost(run, PerPending(s) + 3)
  {
    hide Safe, InService, Measure;
    var perRequest := PerPending(s) + 3;
    ghost var inv := (t: System) => Safe(t) && InService(t) && PerPending(t) + 3 == perRequest;
    forall t: System, a: Action | inv(t) && Enabled(t, a) && Peaceful(a)
      ensures inv(Next(t, a))
      ensures Measure(Next(t, a)) + (if Internal(a) then 1 else 0) <= Measure(t) + StepCost(a, perRequest)
    {
      StepMeasure(t, a);
      NextKeepsSafe(t, a);
      NextStaysInService(t, a);
      NextKeepsSizes(t, a);
    }
    PotentialBoundsRun(s, run, inv, Measure, perRequest);
  }

  lemma MeasureNonNegative(s: System)
    requires Safe(s) && InService(s)
    ensures Measure(s) >= 0
  {
    SumNonNegative(s.cars, s.numFloors);
  }

  lemma StepsWithinMeasure(s: System, run: seq<Action>)
    requires Safe(s) && InService(s) && Feasible(s, run) && PeacefulRun(run)
    ensures InternalSteps(run) <= Measure(s) + Submits(run) * (PerPending(s) + 3) + 3 * Rouses(run)
  {
    hide Safe, InService, Measure;
    RunMeasure(s, run);
    MeasureNonNegative(Run(s, run));
    RunCostSplits(run, PerPending(s) + 3);
  }

  // ----- The measure in terms of the work at hand -----

  /** Requests an elevator has queued or in hand. */
  function Backlog(cars: seq<Car>): nat {
    if cars == [] then 0 else |cars[0].queue| + |InHand(cars[0].pc)| + Backlog(cars[1..])
  }

  /** Accepted requests that have not ended. */
  function Outstanding(s: System): nat {
    |s.pending| + |DispatcherHand(s.pc)| + Backlog(s.cars)
  }

  lemma {:induction false} TimesIsProduct(n: nat, k: nat)
    ensures Times(n, k) == n * k
  {
    if n > 0 {
      TimesIsProduct(n - 1, k);
    }
  }

  lemma CarRankBound(c: Car, numFloors: nat)
    requires MotionInv(c, numFloors)
    ensures CarRank(c, numFloors) <= 9 + if InHand(c.pc) == [] then 0 else PerQueued(numFloors)
  {
  }

  lemma CarMeasureBound(c: Car, numFloors: nat)
    requires MotionInv(c, numFloors)
    ensures CarMeasure(c, numFloors) <= 9 + (|c.queue| + |InHand(c.pc)|) * PerQueued(numFloors)
  {
    CarRankBound(c, numFloors);
    TimesIsProduct(|c.queue|, PerQueued(numFloors));
    Distribute(|c.queue|, |InHand(c.pc)|, PerQueued(numFloors));
  }

  lemma Distribute(n: nat, m: nat, k: nat)
    ensures (n + m) * k == n * k + m * k
    ensures m == 1 ==> m * k == k
  {
  }

  lemma {:induction false} SumBound(cars: seq<Car>, numFloors: nat)
    requires forall e :: 0 <= e < |cars| ==> MotionInv(cars[e], numFloors)
    ensures SumCars(cars, numFloors) <= 9 * |cars| + Backlog(cars) * PerQueued(numFloors)
  {
    if cars != [] {
      CarMeasureBound(cars[0], numFloors);
      SumBound(cars[1..], numFloors);
      Distribute(|cars[0].queue| + |InHand(cars[0].pc)|, Backlog(cars[1..]), PerQueued(numFloors));
    }
  }

  lemma DispatcherRankBound(s: System)
    requires PcInRange(s)
    ensures DispatcherRank(s) <= |s.cars| + 7 + if DispatcherHand(s.pc) == [] then 0 else PerPending(s)
  {
  }

  lemma MeasureBound(s: System)
    requires Safe(s)
    ensures Measure(s) <= Outstanding(s) * PerPending(s) + 10 * |s.cars| + 3 * s.owing + 7
  {
    forall e | 0 <= e < |s.cars|
      ensures MotionInv(s.cars[e], s.numFloors)
    {
      assert CarInv(s.cars[e], s.numFloors);
    }
    var k, hand, backlog := PerPending(s), |DispatcherHand(s.pc)|, Backlog(s.cars);
    DispatcherRankBound(s);
    SumBound(s.cars, s.numFloors);
    TimesIsProduct(|s.pending|, k);
    MoreRequests(backlog, PerQueued(s.numFloors), k);
    Distribute(|s.pending|, hand, k);
    Distribute(|s.pending| + hand, backlog, k);
  }

  /**
   Once everything is running and unflagged, in any reachable state, the threads
   take a bounded number of steps: an allowance for each request outstanding or
   still to come, a constant for each elevator and each notification owed, and
   three for each spurious wake-up.
   */
  lemma RecoveryWithinBound(s: System, run: seq<Action>)
    requires Reachable(s) && InService(s) && Feasible(s, run) && PeacefulRun(run)
    ensures InternalSteps(run)
            <= (Outstanding(s) + Submits(run)) * (6 * s.numFloors + |s.cars| + 32)
               + 10 * |s.cars| + 3 * s.owing + 3 * Rouses(run) + 7
  {
    hide Safe, InService, Measure;
    var k := PerPending(s) + 3;
    ReachableIsSafe(s);
    StepsWithinMeasure(s, run);
    MeasureBound(s);
    MoreRequests(Outstanding(s), PerPending(s), k);
    Distribute(Outstanding(s), Submits(run), k);
  }

  lemma {:induction false} FreshMeasure(cars: seq<Car>, numFloors: nat)
    requires forall e :: 0 <= e < |cars| ==> cars[e] == Fresh(cars[e].floor)
    ensures SumCars(cars, numFloors) == 4 * |cars|
  {
    if cars != [] {
      FreshMeasure(cars[1..], numFloors);
    }
  }

  /** From a fresh start: a start-up allowance, the allowance for each request, and three for each spurious wake-up. */
  lemma DrainsWithinBound(s0: System, run: seq<Action>)
    requires Initial(s0) && Feasible(s0, run) && PeacefulRun(run)
    ensures InternalSteps(run)
            <= 4 * |s0.cars| + 3 + Submits(run) * (6 * s0.numFloors + |s0.cars| + 32) + 3 * Rouses(run)
  {
    FreshMeasure(s0.cars, s0.numFloors);
    assert Measure(s0) == 4 * |s0.cars| + 3;
    hide Safe, InService, Measure;
    InitialIsInService(s0);
    StepsWithinMeasure(s0, run);
  }

  // ----- Where it ends -----

  /** None of the program's threads can do anything. */
  ghost predicate AtRest(s: System) {
    forall a: Action :: Internal(a) ==> !Enabled(s, a)
  }

  lemma RestingStep(s: System, e: nat)
    requires AtRest(s) && e < |s.cars|
    ensures !Enabled(s, OnCar(e, Work)) && !Enabled(s, Action.Dispatch) && s.owing == 0
  {
    assert Internal(OnCar(e, Work)) && Internal(Action.Dispatch) && Internal(NotifyDispatcher);
    assert !Enabled(s, NotifyDispatcher);
  }

  lemma AtRestCars(s: System, e: nat)
    requires Safe(s) && InService(s) && AtRest(s) && e < |s.cars|
    ensures s.cars[e].pc == Polling(Asleep)
  {
    RestingStep(s, e);
    SafeCarInv(s, e);
    hide Safe, AtRest;
  }

  lemma SafeDispatcher(s: System)
    requires Safe(s)
    ensures |s.cars| > 0 && PcInRange(s) && Busy(s)
    ensures s.pc == Waiting(Dormant) && s.pending != [] ==> s.owing > 0
  {
  }

  lemma AtRestDispatcher(s: System)
    requires Safe(s) && InService(s) && AtRest(s)
    ensures s.pc == Waiting(Dormant) && s.pending == []
  {
    SafeDispatcher(s);
    RestingStep(s, 0);
    if s.pc.Push? {
      AtRestCars(s, s.pc.e);
    }
    hide Safe, AtRest;
  }

  lemma AtRestQueues(s: System, e: nat)
    requires Safe(s) && InService(s) && AtRest(s) && e < |s.cars|
    ensures s.cars[e].queue == [] && InHand(s.cars[e].pc) == []
  {
    AtRestCars(s, e);
    AtRestDispatcher(s);
    assert CarAwake(s, e);
  }

  lemma {:induction false} PeaceIsUnbroken(s: System, run: seq<Action>, e: nat)
    requires e < |s.cars| && Free(s.cars[e]) && PeacefulRun(run)
    ensures |Run(s, run).cars| == |s.cars| && Unbroken(s.cars[e], Run(s, run).cars[e])
    decreases |run|
  {
    if run != [] {
      PeaceKeepsFree(s, run[0], e);
      PeaceIsUnbroken(Next(s, run[0]), run[1..], e);
    }
  }

  lemma PeaceLosesNothing(s: System, run: seq<Action>, t: System, e: nat)
    requires Reachable(s) && InService(s) && Feasible(s, run) && PeacefulRun(run) && t == Run(s, run)
    requires e < |s.cars|
    ensures |t.cars| == |s.cars|
    ensures Lost(t.cars[e]) <= Lost(s.cars[e]) + if MissedInHand(s.cars[e]) then 1 else 0
    ensures Undisturbed(s, run, t, e) && Unspoiled(t.cars[e], FirstIntact(s.cars[e]))
  {
    PeaceIsUnbroken(s, run, e);
    BoundedLoss(s, run, e);
    UndisturbedRoute(s, run, t, e);
  }

  /**
   And when no thread can step any more, nothing is left over: no request is
   pending, queued or in any hand, and none has been lost in the meantime except
   one that an emergency had already cut short.
   */
  lemma RestMeansRecovered(s: System, run: seq<Action>, t: System)
    requires Reachable(s) && InService(s) && Feasible(s, run) && PeacefulRun(run) && t == Run(s, run)
    requires AtRest(t)
    ensures t.pc == Waiting(Dormant) && Outstanding(t) == 0
    ensures |t.cars| == |s.cars|
    ensures forall e: nat :: e < |s.cars| ==>
              && Lost(t.cars[e]) <= Lost(s.cars[e]) + (if MissedInHand(s.cars[e]) then 1 else 0)
              && forall i :: FirstIntact(s.cars[e]) <= i < |t.cars[e].log.served| ==> t.cars[e].log.served[i].completed
  {
    ReachableIsSafe(s);
    RunMeasure(s, run);
    AtRestDispatcher(t);
    forall e: nat | e < |t.cars|
      ensures t.cars[e].queue == [] && InHand(t.cars[e].pc) == []
    {
      AtRestQueues(t, e);
    }
    NoBacklog(t.cars);
    RunKeepsSizes(s, run);
    forall e: nat | e < |s.cars|
      ensures Lost(t.cars[e]) <= Lost(s.cars[e]) + (if MissedInHand(s.cars[e]) then 1 else 0)
      ensures forall i :: FirstIntact(s.cars[e]) <= i < |t.cars[e].log.served| ==> t.cars[e].log.served[i].completed
    {
      PeaceLosesNothing(s, run, t, e);
    }
  }

  lemma {:induction false} NoBacklog(cars: seq<Car>)
    requires forall e :: 0 <= e < |cars| ==> cars[e].queue == [] && InHand(cars[e].pc) == []
    ensures Backlog(cars) == 0
  {
    if cars != [] {
      NoBacklog(cars[1..]);
    }
  }

  lemma InitialIsInService(s0: System)
    requires Initial(s0)
    ensures Reachable(s0) && Safe(s0) && InService(s0) && Outstanding(s0) == 0
  {
    InitialIsSafe(s0);
    InitialIsReachable(s0);
    NoBacklog(s0.cars);
  }

  lemma PeaceIsQuiet(s0: System, run: seq<Action>, s: System)
    requires Initial(s0) && Feasible(s0, run) && PeacefulRun(run) && s == Run(s0, run)
    ensures Quiet(s)
  {
    RunKeepsSizes(s0, run);
    forall e | 0 <= e < |s.cars|
      ensures s.cars[e].log.windows == 0
    {
      PeaceIsUnbroken(s0, run, e);
    }
  }

  /** From a fresh start: everything accepted has been dispatched, and everything dispatched completed, in order. */
  lemma RestMeansDone(s0: System, run: seq<Action>, s: System)
    requires Initial(s0) && Feasible(s0, run) && PeacefulRun(run) && s == Run(s0, run)
    requires AtRest(s)
    ensures s.accepted == DispatchedRequests(s.dispatched)
    ensures forall e: nat :: e < |s.cars| ==>
              && Requests(s.cars[e].log.served) == HandedTo(s.dispatched, e)
              && forall o :: o in s.cars[e].log.served ==> o.completed
  {
    InitialIsInService(s0);
    RunMeasure(s0, run);
    AtRestDispatcher(s);
    PeaceIsQuiet(s0, run, s);
    assert s.accepted == DispatchedRequests(s.dispatched) + [] + [];
    forall e: nat | e < |s.cars|
      ensures Requests(s.cars[e].log.served) == HandedTo(s.dispatched, e)
      ensures forall o :: o in s.cars[e].log.served ==> o.completed
    {
      RestMeansServed(s, e);
      PeaceCompletesAll(s0, run, s, e);
    }
  }

  lemma PeaceCompletesAll(s0: System, run: seq<Action>, s: System, e: nat)
    requires Initial(s0) && Feasible(s0, run) && PeacefulRun(run) && s == Run(s0, run) && e < |s.cars|
    ensures forall o :: o in s.cars[e].log.served ==> o.completed
  {
    RunKeepsSizes(s0, run);
    InitialIsInService(s0);
    PeaceLosesNothing(s0, run, s, e);
  }

  // ----- Each submitted request -----

  lemma NextKeepsAccepted(s: System, a: Action)
    ensures s.accepted <= Next(s, a).accepted
    ensures a.Submit? ==> a.request in Next(s, a).accepted
  {
    if a.Dispatch? {
      match s.pc
      case Waiting(_) =>
      case _ =>
    }
  }

  lemma {:induction false} SubmittedIsAccepted(s: System, run: seq<Action>, r: Request)
    requires r in s.accepted || Submit(r) in run
    ensures r in Run(s, run).accepted
    decreases |run|
  {
    if run != [] {
      NextKeepsAccepted(s, run[0]);
      SubmittedIsAccepted(Next(s, run[0]), run[1..], r);
    }
  }

  lemma {:induction false} LocatedSomewhere(cars: seq<Car>, r: Request)
    requires r in LocatedAll(cars)
    ensures exists e :: 0 <= e < |cars| && r in Located(cars[e])
  {
    if r in Located(cars[0]) {
      assert r in Located(cars[0]);
    } else {
      LocatedSomewhere(cars[1..], r);
      var e :| 0 <= e < |cars[1..]| && r in Located(cars[1..][e]);
      assert r in Located(cars[e + 1]);
    }
  }

  lemma {:induction false} EndedIsServed(served: seq<Outcome>, completed: bool, r: Request)
    requires r in Ended(served, completed)
    ensures exists i :: 0 <= i < |served| && served[i] == Outcome(r, completed)
    decreases |served|
  {
    if served[0] == Outcome(r, completed) {
      assert served[0] == Outcome(r, completed);
    } else {
      EndedIsServed(served[1..], completed, r);
      var i :| 0 <= i < |served[1..]| && served[1..][i] == Outcome(r, completed);
      assert served[i + 1] == Outcome(r, completed);
    }
  }

  lemma AcceptedIsCompleted(s0: System, run: seq<Action>, s: System, r: Request)
    requires Initial(s0) && Feasible(s0, run) && PeacefulRun(run) && s == Run(s0, run) && AtRest(s)
    requires r in s.accepted
    ensures exists e: nat, i: nat :: e < |s.cars| && i < |s.cars[e].log.served|
                                     && s.cars[e].log.served[i] == Outcome(r, true)
  {
    hide *;
    RunIsReachable(s0, run);
    PeaceStaysInService(s0, run);
    AtRestDispatcher(s);
    AcceptedIsLocated(s, r);
    var e: nat :| e < |s.cars| && r in Located(s.cars[e]);
    AtRestQueues(s, e);
    PeaceLeavesCompleted(s0, run, s, e);
    LocatedIsServed(s.cars[e], r);
  }

  lemma AcceptedIsLocated(s: System, r: Request)
    requires Reachable(s) && s.pc == Waiting(Dormant) && s.pending == [] && r in s.accepted
    ensures exists e :: 0 <= e < |s.cars| && r in Located(s.cars[e])
  {
    hide Reachable, LocatedAll, Located;
    EveryRequestIsSomewhere(s);
    assert r in multiset(s.accepted) && r in LocatedAll(s.cars);
    LocatedSomewhere(s.cars, r);
  }

  lemma LocatedIsServed(c: Car, r: Request)
    requires r in Located(c) && c.queue == [] && InHand(c.pc) == [] && c.log.rejected == []
    requires Ended(c.log.served, false) == multiset{}
    ensures exists i: nat :: i < |c.log.served| && c.log.served[i] == Outcome(r, true)
  {
    assert r in Ended(c.log.served, true);
    EndedIsServed(c.log.served, true, r);
  }

  lemma RunIsReachable(s0: System, run: seq<Action>)
    requires Initial(s0) && Feasible(s0, run)
    ensures Reachable(Run(s0, run))
  {
  }

  lemma PeaceStaysInService(s0: System, run: seq<Action>)
    requires Initial(s0) && Feasible(s0, run) && PeacefulRun(run)
    ensures Safe(Run(s0, run)) && InService(Run(s0, run))
  {
    InitialIsInService(s0);
    hide Safe, InService;
    RunMeasure(s0, run);
  }

  lemma {:induction false} NothingAborted(served: seq<Outcome>)
    requires forall o :: o in served ==> o.completed
    ensures Ended(served, false) == multiset{}
    decreases |served|
  {
    if served != [] {
      NothingAborted(served[1..]);
    }
  }

  lemma PeaceLeavesCompleted(s0: System, run: seq<Action>, s: System, e: nat)
    requires Initial(s0) && Feasible(s0, run) && PeacefulRun(run) && s == Run(s0, run) && e < |s.cars|
    ensures Ended(s.cars[e].log.served, false) == multiset{} && s.cars[e].log.rejected == []
  {
    PeaceCompletesAll(s0, run, s, e);
    NothingAborted(s.cars[e].log.served);
    RunIsReachable(s0, run);
    PeaceIsQuiet(s0, run, s);
    LossPerWindow(s, e);
  }

  /** Where elevator `c`, started on `start`, has stood. */
  function Stood(start: int, c: Car): seq<int> {
    [start] + c.log.trail
  }

  lemma ServedIsVisited(c: Car, start: int, i: nat)
    requires OnRoute(c, Fresh(start)) && InHand(c.pc) == [] && i < |c.log.served|
    ensures Visits(Stood(start, c), c.log.served[i].request)
  {
    var taken := Taken(c);
    assert taken[0..] == taken == Requests(c.log.served);
    assert Plan(c) == c.log.trail && Plan(Fresh(start)) == [];
    assert c.log.trail == Itinerary(start, taken);
    ItineraryVisits(start, taken, i);
  }

  /**
   From a fresh start, when the system has run dry every request ever submitted -
   trip or hall call - is completed, and its elevator has stood on its pickup
   floor and from then on, if it has one, on its destination.
   */
  lemma SubmittedIsServed(s0: System, run: seq<Action>, s: System, r: Request)
    requires Initial(s0) && Feasible(s0, run) && PeacefulRun(run) && s == Run(s0, run)
    requires AtRest(s) && Submit(r) in run
    ensures |s.cars| == |s0.cars|
    ensures exists e: nat, i: nat :: e < |s.cars| && i < |s.cars[e].log.served|
                                     && s.cars[e].log.served[i] == Outcome(r, true)
                                     && Visits(Stood(s0.cars[e].floor, s.cars[e]), r)
  {
    RunKeepsSizes(s0, run);
    SubmittedIsAccepted(s0, run, r);
    AcceptedIsCompleted(s0, run, s, r);
    var e: nat, i: nat :| e < |s.cars| && i < |s.cars[e].log.served| && s.cars[e].log.served[i] == Outcome(r, true);
    PeaceFromStart(s0, run, s, e);
    PeaceStaysInService(s0, run);
    AtRestQueues(s, e);
    ServedIsVisited(s.cars[e], s0.cars[e].floor, i);
    assert s.cars[e].log.served[i] == Outcome(r, true) && Visits(Stood(s0.cars[e].floor, s.cars[e]), r);
  }

  lemma RestMeansServed(s: System, e: nat)
    requires Safe(s) && InService(s) && AtRest(s) && e < |s.cars|
    ensures Requests(s.cars[e].log.served) == HandedTo(s.dispatched, e)
  {
    AtRestQueues(s, e);
    AllHandedOut(s, e);
  }

  lemma AllHandedOut(s: System, e: nat)
    requires Safe(s) && e < |s.cars| && s.cars[e].queue == [] && InHand(s.cars[e].pc) == []
    ensures Requests(s.cars[e].log.served) == HandedTo(s.dispatched, e)
  {
    SafeCar(s, e);
    hide Safe, HandedTo;
    assert Taken(s.cars[e]) + [] == Requests(s.cars[e].log.served);
  }

  // ----- Floors travelled -----

  function Moves(cars: seq<Car>): nat {
    if cars == [] then 0 else |cars[0].log.trail| + Moves(cars[1..])
  }

  /** Bound on the floors entered, one elevator. */
  ghost predicate ShortTrail(c: Car, k: nat) {
    |c.log.trail| <= k * |c.log.handed|
  }

  lemma MovesOfCar(c: Car, start: int, numFloors: int)
    requires CarInv(c, numFloors) && OnRoute(c, Fresh(start)) && InRange(start, numFloors)
    ensures ShortTrail(c, 2 * (numFloors - 1))
  {
    var taken := Taken(c);
    assert taken[0..] == taken;
    forall r | r in taken
      ensures ValidRequest(r, numFloors)
    {
      assert r in c.log.handed;
    }
    assert |Plan(c)| == |Itinerary(start, taken)|;
    ItineraryLength(start, taken);
    DistanceBound(start, taken, numFloors);
    MoreRequests(2 * (numFloors - 1), |taken|, |c.log.handed|);
  }

  lemma MoreRequests(k: nat, n: nat, m: nat)
    requires n <= m
    ensures k * n <= k * m
  {
  }

  lemma AddScaled(k: nat, n: nat, m: nat, total: nat)
    requires n + m <= total
    ensures k * n + k * m <= k * total
  {
  }

  lemma {:induction false} MovesWithinOffers(cars: seq<Car>, k: nat)
    requires forall e: nat :: e < |cars| ==> ShortTrail(cars[e], k)
    ensures Moves(cars) <= k * |OfferedAll(cars)|
  {
    if cars != [] {
      MovesWithinOffers(cars[1..], k);
      assert ShortTrail(cars[0], k);
      assert |OfferedAll(cars)| == |Offered(cars[0])| + |OfferedAll(cars[1..])|;
      AddScaled(k, |cars[0].log.handed|, |OfferedAll(cars[1..])|, |OfferedAll(cars)|);
    }
  }

  lemma PeacefulTrail(s0: System, run: seq<Action>, s: System, e: nat)
    requires Initial(s0) && Feasible(s0, run) && PeacefulRun(run) && s == Run(s0, run) && e < |s.cars|
    ensures ShortTrail(s.cars[e], 2 * (s0.numFloors - 1))
  {
    hide *;
    PeaceFromStart(s0, run, s, e);
    MovesOfCar(s.cars[e], s0.cars[e].floor, s0.numFloors);
  }

  lemma PeaceFromStart(s0: System, run: seq<Action>, s: System, e: nat)
    requires Initial(s0) && Feasible(s0, run) && PeacefulRun(run) && s == Run(s0, run) && e < |s.cars|
    ensures s0.numFloors >= 1 && |s.cars| == |s0.cars|
    ensures InRange(s0.cars[e].floor, s0.numFloors) && OnRoute(s.cars[e], Fresh(s0.cars[e].floor))
    ensures CarInv(s.cars[e], s0.numFloors)
  {
    RunKeepsSizes(s0, run);
    InitialIsInService(s0);
    PeaceLosesNothing(s0, run, s, e);
    UndisturbedRoute(s0, run, s, e);
    RunMeasure(s0, run);
    hide Safe, InService;
    SafeCarInv(s, e);
  }

  lemma SafeCarInv(s: System, e: nat)
    requires Safe(s) && e < |s.cars|
    ensures CarInv(s.cars[e], s.numFloors)
  {
  }

  lemma OffersAreAccepted(s: System)
    requires Reachable(s)
    ensures |OfferedAll(s.cars)| <= |s.accepted|
  {
    ReachableIsSafe(s);
    assert Balanced(s);
    assert |multiset(s.accepted)| == |Undecided(s)| + |OfferedAll(s.cars)|;
  }

  /** All elevators together enter at most `2 * (numFloors - 1)` floors per accepted request. */
  lemma MovesWithinBound(s0: System, run: seq<Action>, s: System)
    requires Initial(s0) && Feasible(s0, run) && PeacefulRun(run) && s == Run(s0, run)
    ensures Moves(s.cars) <= 2 * (s0.numFloors - 1) * |s.accepted|
  {
    var k := 2 * (s0.numFloors - 1);
    forall e: nat | e < |s.cars|
      ensures ShortTrail(s.cars[e], k)
    {
      PeacefulTrail(s0, run, s, e);
    }
    MovesWithinOffers(s.cars, k);
    OffersAreAccepted(s);
    MoreRequests(k, |OfferedAll(s.cars)|, |s.accepted|);
  }
}

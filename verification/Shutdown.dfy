/** What `Elevator::stop` does to its worker, which it notifies without taking the mutex. */
module Shutdown {
  import opened Domain
  import opened CarProtocol
  import opened SystemProtocol
  import opened Reachability

  /** Worker steps left until a halted elevator's worker is gone or asleep. */
  function StepsLeft(c: Car): nat {
    match c.pc
    case Polling(at) =>
      (match at
       case Head => 1
       case WaitRunning => 2
       case WaitFlag => 3
       case WaitQueue => 2
       case Asleep => 0
       case TestRunning => 1
       case TestFlag => 15)
    case Pop => 14
    case IdleDirection => 3
    case IdleStatus => 2
    case Pickup(_) => 13
    case Deliver(_, _) => 7
    case OnLeg(at, l) => LegStepsLeft(at) + if l.delivering then 0 else 6
    case Exit => 0
  }

  function LegStepsLeft(at: LegPoint): nat {
    match at
    case SetDirection => 6
    case SetStatus => 5
    case SetDestination => 4
    case LoopTest => 3
    case LoopRunning => 2
    case FloorStep => 7
    case DoorsStopped => 6
    case DoorsDirection => 5
    case DoorsIdle => 4
  }

  /** The floor move and the pop that may already be past their test of `running`. */
  function LastMove(c: Car): nat {
    if c.pc.OnLeg? && c.pc.at.FloorStep? then 1 else 0
  }

  function LastPop(c: Car): nat {
    if c.queue != [] && (c.pc == Polling(TestFlag) || c.pc.Pop?) then 1 else 0
  }

  lemma LegWindsDown(c: Car, at: LegPoint, l: Leg)
    requires !c.running && c.pc == OnLeg(at, l)
    ensures StepsLeft(LegStep(c, at, l)) < StepsLeft(c)
    ensures |LegStep(c, at, l).log.trail| + LastMove(LegStep(c, at, l)) <= |c.log.trail| + LastMove(c)
    ensures |Taken(LegStep(c, at, l))| == |Taken(c)| && LastPop(LegStep(c, at, l)) == 0
  {
  }

  lemma WorkerWindsDown(c: Car)
    requires !c.running && c.pc != Polling(Asleep) && !c.pc.Exit?
    ensures StepsLeft(WorkerStep(c)) < StepsLeft(c)
    ensures |WorkerStep(c).log.trail| + LastMove(WorkerStep(c)) <= |c.log.trail| + LastMove(c)
    ensures |Taken(WorkerStep(c))| + LastPop(WorkerStep(c)) <= |Taken(c)| + LastPop(c)
  {
    match c.pc
    case OnLeg(at, l) => LegWindsDown(c, at, l);
    case Deliver(_, _) =>
    case Pickup(_) =>
    case Polling(_) =>
    case Pop =>
    case _ =>
  }

  /** One action on a halted elevator; a push leaves `LastPop` alone, as it waits for the mutex. */
  lemma CarWindsDown(c: Car, a: CarAction, numFloors: int)
    requires !c.running && CarEnabled(c, a, numFloors)
    ensures !CarNext(c, a).running
    ensures StepsLeft(CarNext(c, a)) + (if a.Work? then 1 else 0) <= StepsLeft(c) + if a.Rouse? then 2 else 0
    ensures |CarNext(c, a).log.trail| + LastMove(CarNext(c, a)) <= |c.log.trail| + LastMove(c)
    ensures |Taken(CarNext(c, a))| + LastPop(CarNext(c, a)) <= |Taken(c)| + LastPop(c)
  {
    if a.Work? {
      WorkerWindsDown(c);
      WorkerKeepsFlags(c);
    }
  }

  /** Steps of elevator `e`'s worker, and notifications sent to it. */
  function WorkerSteps(run: seq<Action>, e: nat): nat {
    if run == [] then 0 else (if run[0] == OnCar(e, Work) then 1 else 0) + WorkerSteps(run[1..], e)
  }

  function Notified(s: System, run: seq<Action>, e: nat): nat
    decreases |run|
  {
    if run == [] then 0
    else (if ActionOn(s, run[0], e) == Some(Rouse) then 1 else 0) + Notified(Next(s, run[0]), run[1..], e)
  }

  predicate WoundDown(c: Car, c': Car) {
    && !c'.running
    && |c'.log.trail| + LastMove(c') <= |c.log.trail| + LastMove(c)
    && |Taken(c')| + LastPop(c') <= |Taken(c)| + LastPop(c)
  }

  lemma StaysHalted(c: Car, c': Car)
    requires WoundDown(c, c')
    ensures !c'.running
  {
  }

  lemma WindsDownFurther(c: Car, c1: Car, c2: Car)
    requires WoundDown(c, c1) && WoundDown(c1, c2)
    ensures WoundDown(c, c2)
  {
  }

  lemma NextWindsDown(s: System, a: Action, e: nat)
    requires Safe(s) && Enabled(s, a) && e < |s.cars| && !s.cars[e].running
    ensures |Next(s, a).cars| == |s.cars| && WoundDown(s.cars[e], Next(s, a).cars[e])
    ensures StepsLeft(Next(s, a).cars[e]) + (if a == OnCar(e, Work) then 1 else 0)
            <= StepsLeft(s.cars[e]) + if ActionOn(s, a, e) == Some(Rouse) then 2 else 0
  {
    NextOnCar(s, a, e);
    NextActionEnabled(s, a, e);
    if ActionOn(s, a, e).Some? {
      CarWindsDown(s.cars[e], ActionOn(s, a, e).value, s.numFloors);
    }
  }

  lemma {:induction false} RunWindsDown(s: System, run: seq<Action>, e: nat)
    requires Safe(s) && Feasible(s, run) && e < |s.cars| && !s.cars[e].running
    ensures |Run(s, run).cars| == |s.cars| && WoundDown(s.cars[e], Run(s, run).cars[e])
    ensures WorkerSteps(run, e) + StepsLeft(Run(s, run).cars[e]) <= StepsLeft(s.cars[e]) + 2 * Notified(s, run, e)
    decreases |run|
  {
    if run != [] {
      NextWindsDown(s, run[0], e);
      NextKeepsSafe(s, run[0]);
      StaysHalted(s.cars[e], Next(s, run[0]).cars[e]);
      hide Safe, StepsLeft, WoundDown, Enabled, Next, ActionOn;
      RunWindsDown(Next(s, run[0]), run[1..], e);
      WindsDownFurther(s.cars[e], Next(s, run[0]).cars[e], Run(s, run).cars[e]);
    } else {
      assert WoundDown(s.cars[e], s.cars[e]);
    }
  }

  lemma AlmostDown(c: Car)
    ensures StepsLeft(c) <= 15
  {
  }

  /**
   Once `running` is clear the worker takes at most fifteen more steps, and two
   for each notification, before it is gone or asleep; it enters at most one more
   floor and takes at most one more request.
   */
  lemma HaltedWorkerWindsDown(s: System, run: seq<Action>, e: nat)
    requires Reachable(s) && Feasible(s, run) && e < |s.cars| && !s.cars[e].running
    ensures |Run(s, run).cars| == |s.cars|
    ensures WorkerSteps(run, e) <= 15 + 2 * Notified(s, run, e)
    ensures |Run(s, run).cars[e].log.trail| <= |s.cars[e].log.trail| + 1
    ensures |Taken(Run(s, run).cars[e])| <= |Taken(s.cars[e])| + 1
  {
    ReachableIsSafe(s);
    AlmostDown(s.cars[e]);
    hide Safe, StepsLeft, Reachable, Taken;
    RunWindsDown(s, run, e);
  }
}

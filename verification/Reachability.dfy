/** The invariants together, and what they give for every run from a fresh start. */
module Reachability {
  import opened Domain
  import opened CarProtocol
  import opened SystemProtocol
  import opened Conservation
  import opened WakeUps
  import opened Fifo
  import opened Travel
  import opened Emergency

  ghost predicate Safe(s: System) {
    Wf(s) && Balanced(s) && Split(s) && Awake(s) && NotStranded(s) && Busy(s) && QuietInv(s)
  }

  lemma {:induction false} FreshCarsOfferedNothing(cars: seq<Car>)
    requires forall e :: 0 <= e < |cars| ==> cars[e].log == NO_LOG
    ensures OfferedAll(cars) == multiset{}
  {
    if cars != [] {
      FreshCarsOfferedNothing(cars[1..]);
    }
  }

  lemma InitialIsSafe(s: System)
    requires Initial(s)
    ensures Safe(s)
  {
    InitialIsWf(s);
    FreshCarsOfferedNothing(s.cars);
    hide Wf, CarInv;
  }

  lemma InitialIsWf(s: System)
    requires Initial(s)
    ensures Wf(s)
  {
    forall e | 0 <= e < |s.cars|
      ensures CarInv(s.cars[e], s.numFloors)
    {
      FreshCarOk(s.cars[e].floor, s.numFloors);
    }
  }

  lemma NextKeepsSafe(s: System, a: Action)
    requires Safe(s) && Enabled(s, a)
    ensures Safe(Next(s, a))
  {
    NextKeepsWf(s, a);
    NextKeepsBalance(s, a);
    NextKeepsSplit(s, a);
    NextKeepsAwake(s, a);
    NextKeepsNotStranded(s, a);
    NextKeepsBusy(s, a);
    NextKeepsQuietInv(s, a);
  }

  lemma {:induction false} RunKeepsSafe(s: System, run: seq<Action>)
    requires Safe(s) && Feasible(s, run)
    ensures Safe(Run(s, run))
    decreases |run|
  {
    if run != [] {
      NextKeepsSafe(s, run[0]);
      RunKeepsSafe(Next(s, run[0]), run[1..]);
    }
  }

  /** Some interleaving leads from a fresh start to `s`. */
  ghost predicate Reachable(s: System) {
    exists s0: System, run: seq<Action> :: Initial(s0) && Feasible(s0, run) && s == Run(s0, run)
  }

  lemma ReachableIsSafe(s: System)
    requires Reachable(s)
    ensures Safe(s)
  {
    var s0: System, run: seq<Action> :| Initial(s0) && Feasible(s0, run) && s == Run(s0, run);
    InitialIsSafe(s0);
    RunKeepsSafe(s0, run);
  }

  lemma ReachableIsWf(s: System)
    requires Reachable(s)
    ensures Wf(s)
  {
    ReachableIsSafe(s);
  }

  lemma ReachableCar(s: System, e: nat)
    requires Reachable(s) && e < |s.cars|
    ensures CarInv(s.cars[e], s.numFloors)
  {
    ReachableIsWf(s);
  }

  // ----- Conservation -----

  function Ended(served: seq<Outcome>, completed: bool): multiset<Request> {
    if served == [] then multiset{}
    else if served[0].completed == completed then multiset{served[0].request} + Ended(served[1..], completed)
    else Ended(served[1..], completed)
  }

  lemma {:induction false} ServedIsCompletedOrAborted(served: seq<Outcome>)
    ensures multiset(Requests(served)) == Ended(served, true) + Ended(served, false)
    decreases |served|
  {
    if served != [] {
      var r, rest := served[0].request, Requests(served[1..]);
      ServedIsCompletedOrAborted(served[1..]);
      assert Requests(served) == [r] + rest;
      AddToOne(r, rest, Ended(served[1..], true), Ended(served[1..], false));
    }
  }

  lemma AddToOne<T>(x: T, rest: seq<T>, a: multiset<T>, b: multiset<T>)
    requires multiset(rest) == a + b
    ensures multiset([x] + rest) == (multiset{x} + a) + b == a + (multiset{x} + b)
  {
  }

  /** Where a request offered to an elevator can be. */
  ghost function Located(c: Car): multiset<Request> {
    multiset(c.queue) + multiset(InHand(c.pc)) + Ended(c.log.served, true) + Ended(c.log.served, false)
    + multiset(c.log.rejected)
  }

  ghost function LocatedAll(cars: seq<Car>): multiset<Request> {
    if cars == [] then multiset{} else Located(cars[0]) + LocatedAll(cars[1..])
  }

  lemma AddUp<T>(h: seq<T>, s: seq<T>, i: seq<T>, q: seq<T>, t: multiset<T>, f: multiset<T>, r: multiset<T>)
    requires h == s + i + q && multiset(s) == t + f
    ensures multiset(h) + r == multiset(q) + multiset(i) + t + f + r
  {
  }

  lemma OfferedIsLocated(c: Car, numFloors: int)
    requires FlowInv(c, numFloors)
    ensures Offered(c) == Located(c)
  {
    ServedIsCompletedOrAborted(c.log.served);
    AddUp(c.log.handed, Requests(c.log.served), InHand(c.pc), c.queue,
          Ended(c.log.served, true), Ended(c.log.served, false), multiset(c.log.rejected));
  }

  lemma {:induction false} OfferedAllIsLocated(cars: seq<Car>, numFloors: int)
    requires forall e :: 0 <= e < |cars| ==> FlowInv(cars[e], numFloors)
    ensures OfferedAll(cars) == LocatedAll(cars)
  {
    if cars != [] {
      OfferedIsLocated(cars[0], numFloors);
      OfferedAllIsLocated(cars[1..], numFloors);
    }
  }

  /** Whatever the interleaving, each accepted request is in exactly one place. */
  lemma EveryRequestIsSomewhere(s: System)
    requires Reachable(s)
    ensures multiset(s.accepted) == multiset(s.pending) + multiset(DispatcherHand(s.pc)) + LocatedAll(s.cars)
  {
    ReachableIsSafe(s);
    OfferedAllIsLocated(s.cars, s.numFloors);
  }

  // ----- Order -----

  /** Each elevator serves what it was handed first come, first served, through every emergency. */
  lemma ElevatorIsFifo(s: System, e: nat)
    requires Reachable(s) && e < |s.cars|
    ensures var c := s.cars[e];
            HandedTo(s.dispatched, e) == Requests(c.log.served) + InHand(c.pc) + c.queue
  {
    ReachableIsSafe(s);
    ReachableCar(s, e);
  }

  /** Without an emergency the dispatcher is a FIFO splitter. */
  lemma DispatcherIsFifo(s: System)
    requires Reachable(s) && Quiet(s)
    ensures s.accepted == DispatchedRequests(s.dispatched) + DispatcherHand(s.pc) + s.pending
  {
    ReachableIsSafe(s);
  }

  lemma NextKeepsSizes(s: System, a: Action)
    ensures Next(s, a).numFloors == s.numFloors && |Next(s, a).cars| == |s.cars|
  {
    if a.Dispatch? {
      match s.pc
      case Waiting(_) =>
      case _ =>
    }
  }

  lemma {:induction false} RunKeepsSizes(s: System, run: seq<Action>)
    ensures Run(s, run).numFloors == s.numFloors && |Run(s, run).cars| == |s.cars|
    decreases |run|
  {
    if run != [] {
      NextKeepsSizes(s, run[0]);
      RunKeepsSizes(Next(s, run[0]), run[1..]);
    }
  }

  // ----- Loss -----

  /**
   Since its start an elevator has refused at most one request per emergency
   window, shut down or not, and aborted at most one per window, and one more
   for a shutdown. Without an emergency and a shutdown none is lost.
   */
  lemma LossPerWindow(s: System, e: nat)
    requires Reachable(s) && e < |s.cars|
    ensures |s.cars[e].log.rejected| <= s.cars[e].log.windows
    ensures AbortedCount(s.cars[e].log.served) <= s.cars[e].log.windows + Halts(s.cars[e])
    ensures Lost(s.cars[e]) <= 2 * s.cars[e].log.windows + Halts(s.cars[e])
  {
    var s0: System, run: seq<Action> :| Initial(s0) && Feasible(s0, run) && s == Run(s0, run);
    RunKeepsSizes(s0, run);
    BoundedLoss(s0, run, e);
  }

  lemma {:induction false} RunAppends(s: System, run: seq<Action>, a: Action)
    requires Feasible(s, run) && Enabled(Run(s, run), a)
    ensures Feasible(s, run + [a]) && Run(s, run + [a]) == Next(Run(s, run), a)
    decreases |run|
  {
    if run == [] {
      assert [a][1..] == [];
    } else {
      assert (run + [a])[1..] == run[1..] + [a];
      RunAppends(Next(s, run[0]), run[1..], a);
    }
  }

  lemma NextIsReachable(s: System, a: Action)
    requires Reachable(s) && Enabled(s, a)
    ensures Reachable(Next(s, a))
  {
    var s0: System, run: seq<Action> :| Initial(s0) && Feasible(s0, run) && s == Run(s0, run);
    RunAppends(s0, run, a);
  }

  // ----- While the flag stays set -----

  /** What a stretch with the flag set may leave of a queue. */
  ghost predicate Frozen(queue: seq<Request>, queue': seq<Request>, popped: nat, pushed: seq<Request>) {
    popped <= 1 && |pushed| <= 1 && popped <= |queue| && queue' == queue[popped..] + pushed
  }

  lemma CutQueue(handed: seq<Request>, handed': seq<Request>, taken: seq<Request>, taken': seq<Request>,
                 queue: seq<Request>, queue': seq<Request>)
    requires handed == taken + queue && handed' == taken' + queue' && handed <= handed'
    requires |taken| <= |taken'| <= |taken| + 1 && |taken'| <= |taken| + |queue| && |handed'| <= |handed| + 1
    ensures exists popped: nat, pushed: seq<Request> :: Frozen(queue, queue', popped, pushed)
  {
    var popped, pushed := |taken'| - |taken|, handed'[|handed|..];
    assert handed' == handed + pushed;
    assert queue' == handed'[|taken'|..];
    assert Frozen(queue, queue', popped, pushed);
  }

  lemma SafeCar(s: System, e: nat)
    requires Safe(s) && e < |s.cars|
    ensures s.cars[e].log.handed == Taken(s.cars[e]) + s.cars[e].queue
    ensures HandedTo(s.dispatched, e) == s.cars[e].log.handed
  {
    assert CarInv(s.cars[e], s.numFloors);
  }

  lemma SafeCarAfter(s: System, run: seq<Action>, e: nat)
    requires Safe(s) && Feasible(s, run) && e < |s.cars|
    ensures |Run(s, run).cars| == |s.cars|
    ensures Run(s, run).cars[e].log.handed == Taken(Run(s, run).cars[e]) + Run(s, run).cars[e].queue
  {
    RunKeepsSizes(s, run);
    RunKeepsSafe(s, run);
    SafeCar(Run(s, run), e);
  }

  /** While the flag stays set: at most one floor entered, one request popped, one pushed; the rest waits in order. */
  lemma FlaggedElevatorFreezes(s: System, run: seq<Action>, e: nat)
    requires Reachable(s) && Feasible(s, run)
    requires e < |s.cars| && s.cars[e].flag && KeepsFlag(run, e)
    ensures |Run(s, run).cars| == |s.cars|
    ensures |Run(s, run).cars[e].log.trail| <= |s.cars[e].log.trail| + 1
    ensures exists popped: nat, pushed: seq<Request> ::
              Frozen(s.cars[e].queue, Run(s, run).cars[e].queue, popped, pushed)
  {
    SafeAround(s, run, e);
    FlaggedRun(s, run, e);
    var c, c' := s.cars[e], Run(s, run).cars[e];
    CutQueue(c.log.handed, c'.log.handed, Taken(c), Taken(c'), c.queue, c'.queue);
  }

  lemma SafeAround(s: System, run: seq<Action>, e: nat)
    requires Reachable(s) && Feasible(s, run) && e < |s.cars|
    ensures |Run(s, run).cars| == |s.cars|
    ensures s.cars[e].log.handed == Taken(s.cars[e]) + s.cars[e].queue
    ensures Run(s, run).cars[e].log.handed == Taken(Run(s, run).cars[e]) + Run(s, run).cars[e].queue
  {
    ReachableIsSafe(s);
    SafeCar(s, e);
    SafeCarAfter(s, run, e);
  }

  // ----- Wake-ups and shutdown -----

  /** A thread asleep with work waiting is about to be notified. */
  lemma NoLostWakeUp(s: System)
    requires Reachable(s)
    ensures s.pc == Waiting(Dormant) && s.pending != [] ==> s.owing > 0
    ensures forall e: nat :: e < |s.cars| && s.cars[e].pc == Polling(Asleep) && s.cars[e].queue != []
                             ==> s.pc == Notify(e)
  {
    ReachableIsSafe(s);
    forall e: nat | e < |s.cars| && s.cars[e].pc == Polling(Asleep) && s.cars[e].queue != []
      ensures s.pc == Notify(e)
    {
      assert CarAwake(s, e);
    }
  }

  /** Asleep with `running` false: the notification of `stop` is still to come. */
  lemma StopNeverStrandsDispatcher(s: System)
    requires Reachable(s)
    ensures s.pc == Waiting(Dormant) && !s.running ==> !s.haltNotified
  {
    ReachableIsSafe(s);
  }

  /** A dispatcher that has not left can step, or waits for a mutex whose holder can step. */
  lemma HaltedDispatcherIsNotBlocked(s: System)
    requires Reachable(s) && s.haltNotified && !s.pc.Left?
    ensures Enabled(s, Action.Dispatch) || (s.pc.Push? && s.pc.e < |s.cars| && Enabled(s, OnCar(s.pc.e, Work)))
  {
    ReachableIsSafe(s);
  }

  /** After the notification of `stop` the dispatcher takes at most `|cars| + 6` more steps, whatever else happens. */
  lemma StopReachesDispatcher(s: System, run: seq<Action>)
    requires Reachable(s) && s.haltNotified && Feasible(s, run)
    ensures DispatcherSteps(run) + StepsToExit(Run(s, run)) <= |s.cars| + 6
  {
    ReachableIsSafe(s);
    HaltedRunLeaves(s, run);
    assert StepsToExit(s) <= |s.cars| + 6;
  }

  lemma {:induction false} RunStaysReachable(s: System, run: seq<Action>)
    requires Reachable(s) && Feasible(s, run)
    ensures Reachable(Run(s, run))
    decreases |run|
  {
    if run != [] {
      NextIsReachable(s, run[0]);
      RunStaysReachable(Next(s, run[0]), run[1..]);
    }
  }

  lemma {:induction false} StaysOff(s: System, run: seq<Action>)
    requires !s.running
    ensures !Run(s, run).running
    decreases |run|
  {
    if run != [] {
      NextStaysOff(s, run[0]);
      StaysOff(Next(s, run[0]), run[1..]);
    }
  }

  lemma NextStaysOff(s: System, a: Action)
    requires !s.running
    ensures !Next(s, a).running
  {
    if a.Dispatch? {
      match s.pc
      case Waiting(_) =>
      case _ =>
    }
  }

  /**
   `ElevatorController::stop` from any reachable state: after its store, as soon
   as the mutex is free it can notify, and once it has, `|cars| + 6` steps take
   the dispatcher out of its loop, whatever happens in between.
   */
  lemma StopEndsDispatcher(s: System, before: seq<Action>, t: System, after: seq<Action>)
    requires Reachable(s) && Feasible(Next(s, HaltController), before) && t == Run(Next(s, HaltController), before)
    ensures !HoldsLock(t.pc) ==> Enabled(t, NotifyHalt)
    ensures Enabled(t, NotifyHalt) && Feasible(Next(t, NotifyHalt), after) && DispatcherSteps(after) >= |s.cars| + 6
            ==> Run(Next(t, NotifyHalt), after).pc.Left?
  {
    NextIsReachable(s, HaltController);
    RunStaysReachable(Next(s, HaltController), before);
    StaysOff(Next(s, HaltController), before);
    RunKeepsSizes(Next(s, HaltController), before);
    if Enabled(t, NotifyHalt) && Feasible(Next(t, NotifyHalt), after) {
      NextIsReachable(t, NotifyHalt);
      NextKeepsSizes(t, NotifyHalt);
      StopReachesDispatcher(Next(t, NotifyHalt), after);
    }
  }

  // ----- Position and status -----

  /** No interleaving moves an elevator, or its destination, off the building. */
  lemma PositionIsSafe(s: System, e: nat)
    requires Reachable(s) && e < |s.cars|
    ensures var c := s.cars[e];
            && 1 <= c.floor <= s.numFloors && 1 <= c.dest <= s.numFloors
            && (InLoop(c) && c.floor != c.dest ==>
                  && (c.direction.Up? <==> c.floor < c.dest) && (c.direction.Down? <==> c.floor > c.dest))
            && (c.pc.OnLeg? && c.pc.at.FloorStep? ==> c.floor != c.dest)
            && (c.status.Stopped? ==> c.floor == c.dest)
  {
    ReachableCar(s, e);
  }

  // ----- While running and unflagged -----

  /** Elevator states at two moments with neither an emergency nor a shutdown in between. */
  predicate Unbroken(c: Car, c': Car) {
    !c.flag && c'.running && c'.log.windows == c.log.windows
  }

  lemma {:induction false} RunGoesOn(s: System, run: seq<Action>, e: nat)
    requires e < |s.cars|
    ensures |Run(s, run).cars| == |s.cars|
    ensures s.cars[e].log.windows <= Run(s, run).cars[e].log.windows
    ensures Run(s, run).cars[e].running ==> s.cars[e].running
    decreases |run|
  {
    if run != [] {
      NextGoesOn(s, run[0], e);
      RunGoesOn(Next(s, run[0]), run[1..], e);
    }
  }

  lemma UnbrokenSplits(s: System, run: seq<Action>, e: nat)
    requires e < |s.cars| && run != []
    requires e < |Run(s, run).cars| && Unbroken(s.cars[e], Run(s, run).cars[e])
    ensures Free(s.cars[e]) && |Next(s, run[0]).cars| == |s.cars|
    ensures Unbroken(s.cars[e], Next(s, run[0]).cars[e])
    ensures Unbroken(Next(s, run[0]).cars[e], Run(s, run).cars[e])
  {
    NextGoesOn(s, run[0], e);
    RunGoesOn(Next(s, run[0]), run[1..], e);
  }

  lemma NextActionEnabled(s: System, a: Action, e: nat)
    requires e < |s.cars| && Wf(s) && Enabled(s, a)
    ensures var act := ActionOn(s, a, e); act.Some? ==> CarEnabled(s.cars[e], act.value, s.numFloors)
  {
  }

  /** What one elevator's own action keeps while it is running and unflagged. */
  lemma NextStaysOnRoute(s: System, a: Action, e: nat, c0: Car, n: nat)
    requires Wf(s) && Enabled(s, a) && e < |s.cars| && Free(s.cars[e])
    requires OnRoute(s.cars[e], c0) && Unspoiled(s.cars[e], n)
    ensures |Next(s, a).cars| == |s.cars|
    ensures OnRoute(Next(s, a).cars[e], c0) && Unspoiled(Next(s, a).cars[e], n)
    ensures Calm(s.cars[e]) && CalmInv(s.cars[e]) ==> CalmInv(Next(s, a).cars[e])
  {
    var c, act := s.cars[e], ActionOn(s, a, e);
    NextOnCar(s, a, e);
    NextActionEnabled(s, a, e);
    assert CarInv(c, s.numFloors);
    if act.Some? {
      CarNextKeepsRoute(c, act.value, c0, s.numFloors);
      CarNextKeepsUnspoiled(c, act.value, s.numFloors, n);
      if Calm(c) && CalmInv(c) {
        CarNextKeepsCalm(c, act.value, s.numFloors);
      }
    }
  }

  /** And hence over a whole run without an emergency or a shutdown. */
  lemma {:induction false} StaysOnRoute(s: System, run: seq<Action>, e: nat, c0: Car, n: nat)
    requires Safe(s) && Feasible(s, run) && e < |s.cars|
    requires e < |Run(s, run).cars| && Unbroken(s.cars[e], Run(s, run).cars[e])
    requires OnRoute(s.cars[e], c0) && Unspoiled(s.cars[e], n)
    ensures OnRoute(Run(s, run).cars[e], c0) && Unspoiled(Run(s, run).cars[e], n)
    ensures Calm(s.cars[e]) && CalmInv(s.cars[e]) ==> CalmInv(Run(s, run).cars[e])
    decreases |run|
  {
    if run != [] {
      UnbrokenSplits(s, run, e);
      NextKeepsSafe(s, run[0]);
      NextStaysOnRoute(s, run[0], e, c0, n);
      StaysOnRoute(Next(s, run[0]), run[1..], e, c0, n);
    }
  }

  /** `t` is reached from a reachable `s`, and elevator `e` has been running and unflagged throughout. */
  ghost predicate Undisturbed(s: System, run: seq<Action>, t: System, e: nat) {
    && Reachable(s) && Feasible(s, run) && t == Run(s, run)
    && e < |s.cars| && e < |t.cars| && Unbroken(s.cars[e], t.cars[e])
  }

  /** The requests that cannot be spoiled any more: those after the one in hand if that was cut short. */
  function FirstIntact(c: Car): nat {
    |c.log.served| + if MissedInHand(c) then 1 else 0
  }

  lemma UndisturbedRoute(s: System, run: seq<Action>, t: System, e: nat)
    requires Undisturbed(s, run, t, e)
    ensures OnRoute(t.cars[e], s.cars[e]) && Unspoiled(t.cars[e], FirstIntact(s.cars[e]))
  {
    ReachableIsSafe(s);
    StartsOnRoute(s.cars[e]);
    StaysOnRoute(s, run, e, s.cars[e], FirstIntact(s.cars[e]));
  }

  lemma FreshIsCalm(start: int)
    ensures Calm(Fresh(start)) && CalmInv(Fresh(start))
  {
  }

  lemma InitialIsReachable(s0: System)
    requires Initial(s0)
    ensures Reachable(s0)
  {
    assert Feasible(s0, []) && Run(s0, []) == s0;
  }

  /**
   For an elevator never flagged nor halted since its start, direction IDLE
   means it is where it was going, which is why status hides the destination.
   */
  lemma IdleDirectionMeansArrived(s0: System, run: seq<Action>, s: System, e: nat)
    requires Initial(s0) && Undisturbed(s0, run, s, e)
    ensures s.cars[e].direction.Idle? ==> s.cars[e].floor == s.cars[e].dest
    ensures InHand(s.cars[e].pc) == [] ==> s.cars[e].direction.Idle?
    ensures forall o :: o in s.cars[e].log.served ==> o.completed
  {
    ReachableIsSafe(s0);
    StartsOnRoute(s0.cars[e]);
    FreshIsCalm(s0.cars[e].floor);
    StaysOnRoute(s0, run, e, s0.cars[e], 0);
  }

  /** No emergency call stores a status for elevator `e`. */
  predicate NoStores(run: seq<Action>, e: nat)
    decreases |run|
  {
    run == [] || (!(run[0].OnCar? && run[0].e == e && run[0].act.StoreStatus?) && NoStores(run[1..], e))
  }

  lemma NextKeepsOwnStatus(s: System, a: Action, e: nat)
    requires Wf(s) && e < |s.cars| && Calm(s.cars[e]) && CalmInv(s.cars[e]) && s.cars[e].status == OwnStatus(s.cars[e])
    requires !(a.OnCar? && a.e == e && a.act.StoreStatus?)
    ensures |Next(s, a).cars| == |s.cars| && Next(s, a).cars[e].status == OwnStatus(Next(s, a).cars[e])
  {
    NextOnCar(s, a, e);
    assert CarInv(s.cars[e], s.numFloors);
    if ActionOn(s, a, e).Some? {
      CarNextKeepsOwnStatus(s.cars[e], ActionOn(s, a, e).value, s.numFloors);
    }
  }

  lemma {:induction false} RunKeepsOwnStatus(s: System, run: seq<Action>, e: nat)
    requires Safe(s) && Feasible(s, run) && e < |s.cars| && NoStores(run, e)
    requires e < |Run(s, run).cars| && Unbroken(s.cars[e], Run(s, run).cars[e])
    requires Calm(s.cars[e]) && CalmInv(s.cars[e]) && s.cars[e].status == OwnStatus(s.cars[e])
    ensures Run(s, run).cars[e].status == OwnStatus(Run(s, run).cars[e])
    decreases |run|
  {
    if run != [] {
      UnbrokenSplits(s, run, e);
      NextKeepsSafe(s, run[0]);
      StartsOnRoute(s.cars[e]);
      NextStaysOnRoute(s, run[0], e, s.cars[e], FirstIntact(s.cars[e]));
      NextKeepsOwnStatus(s, run[0], e);
      hide Safe, CalmInv, OwnStatus, Enabled;
      RunKeepsOwnStatus(Next(s, run[0]), run[1..], e);
    }
  }

  /** Moving towards a floor not yet reached, or just before the doors open there. */
  predicate UnderWay(c: Car) {
    c.pc.OnLeg? && var at := c.pc.at;
    at.SetDestination? || (at.LoopTest? && c.floor != c.pc.leg.target) || at.LoopRunning? || at.FloorStep?
    || at.DoorsStopped?
  }

  /**
   For an elevator never flagged nor halted since its start, MOVING means under
   way. Unless an emergency call stored another status meanwhile, under way also
   means MOVING, doors at work mean STOPPED, and an elevator with nothing in hand
   shows IDLE, which is what makes it available to "go" and preferred by the scan.
   */
  lemma StatusTellsPhase(s0: System, run: seq<Action>, s: System, e: nat)
    requires Initial(s0) && Undisturbed(s0, run, s, e)
    ensures s.cars[e].status.Moving? ==> UnderWay(s.cars[e])
    ensures NoStores(run, e) ==>
              var c := s.cars[e];
              && (UnderWay(c) ==> c.status.Moving?)
              && (c.pc.OnLeg? && (c.pc.at.DoorsDirection? || c.pc.at.DoorsIdle?) <==> c.status.Stopped?)
              && (InHand(c.pc) == [] ==> c.status.Idle?)
              && !c.status.Emergency?
  {
    ReachableIsSafe(s0);
    StartsOnRoute(s0.cars[e]);
    FreshIsCalm(s0.cars[e].floor);
    StaysOnRoute(s0, run, e, s0.cars[e], 0);
    if NoStores(run, e) {
      RunKeepsOwnStatus(s0, run, e);
    }
  }

  const FLOOR_TRAVEL_TIME_MS := 1000
  const DOOR_OPERATION_TIME_MS := 1000

  /** Simulated time an elevator has spent moving and operating its doors. */
  function TimeSpent(c: Car): nat {
    FLOOR_TRAVEL_TIME_MS * |c.log.trail| + 2 * DOOR_OPERATION_TIME_MS * c.log.doors
  }

  /** The requests taken on between two moments. */
  function TakenSince(c0: Car, c: Car): seq<Request> {
    if |Taken(c0)| <= |Taken(c)| then Taken(c)[|Taken(c0)|..] else []
  }

  lemma AtRestOnRoute(c: Car, c0: Car)
    requires OnRoute(c, c0) && InHand(c.pc) == [] && InHand(c0.pc) == []
    ensures c.log.trail == c0.log.trail + Itinerary(c0.floor, TakenSince(c0, c))
    ensures c.log.doors == c0.log.doors + DoorCycles(c0.floor, TakenSince(c0, c))
  {
    assert Plan(c) == c.log.trail && Plan(c0) == c0.log.trail;
  }

  lemma AtRestIntact(c: Car)
    requires InHand(c.pc) == []
    ensures Taken(c) == Requests(c.log.served) && FirstIntact(c) == |c.log.served|
  {
  }

  lemma IntactCompletes(c: Car, n: nat)
    requires Unspoiled(c, n)
    ensures forall i :: n <= i < |c.log.served| ==> c.log.served[i].completed
  {
  }

  /** From rest to rest: exactly the floors of the itinerary of the requests served, all completed, and its time. */
  ghost predicate TravelsExactly(c: Car, c': Car) {
    && |c.log.served| <= |c'.log.served|
    && var served := Requests(c'.log.served)[|c.log.served|..];
       && c'.log.trail == c.log.trail + Itinerary(c.floor, served)
       && |c'.log.trail| == |c.log.trail| + TotalDistance(c.floor, served)
       && TimeSpent(c') == TimeSpent(c) + 1000 * TotalDistance(c.floor, served) + 2000 * DoorCycles(c.floor, served)
       && forall i :: |c.log.served| <= i < |c'.log.served| ==> c'.log.served[i].completed
  }

  lemma RestToRest(c: Car, c': Car)
    requires OnRoute(c', c) && Unspoiled(c', FirstIntact(c)) && InHand(c.pc) == [] && InHand(c'.pc) == []
    ensures TravelsExactly(c, c')
  {
    hide Unspoiled, Itinerary, TotalDistance, DoorCycles, Taken, InHand, Plan, PlannedDoors, EndOfHand;
    AtRestOnRoute(c', c);
    AtRestIntact(c);
    AtRestIntact(c');
    IntactCompletes(c', FirstIntact(c));
    ItineraryLength(c.floor, TakenSince(c, c'));
  }

  /**
   Between any two moments at which an undisturbed elevator has nothing in
   hand - after an emergency or before one - it enters exactly the floors of the
   itinerary of the requests it takes on in between, and completes them all.
   */
  lemma ExactTravel(s: System, run: seq<Action>, t: System, e: nat)
    requires Undisturbed(s, run, t, e) && InHand(s.cars[e].pc) == [] && InHand(t.cars[e].pc) == []
    ensures TravelsExactly(s.cars[e], t.cars[e])
  {
    UndisturbedRoute(s, run, t, e);
    RestToRest(s.cars[e], t.cars[e]);
    hide *;
  }
}

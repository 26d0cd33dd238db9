/** Sleeping threads are never forgotten: requests and shutdown both reach them. */
module WakeUps {
  import opened CarProtocol
  import opened SystemProtocol

  /** A sleeping thread with work waiting is about to be notified by whoever brought the work. */
  ghost predicate Awake(s: System) {
    && (s.pc == Waiting(Dormant) && s.pending != [] ==> s.owing > 0)
    && forall e :: 0 <= e < |s.cars| ==> CarAwake(s, e)
  }

  ghost predicate CarAwake(s: System, e: nat)
    requires e < |s.cars|
  {
    s.cars[e].pc == Polling(Asleep) && s.cars[e].queue != [] ==> s.pc == Notify(e)
  }

  lemma ChangeCarKeepsAwake(s: System, e: nat, a: CarAction, k: nat)
    requires e < |s.cars| && k < |s.cars| && !a.Accept? && (a.Work? ==> s.cars[e].pc != Polling(Asleep))
    requires CarAwake(s, k)
    ensures CarAwake(ChangeCar(s, e, a), k)
    ensures a.Rouse? && k == e ==> !(ChangeCar(s, e, a).cars[k].pc == Polling(Asleep))
  {
  }

  lemma DispatcherKeepsAwake(s: System)
    requires Awake(s) && PcInRange(s) && Enabled(s, Dispatch)
    ensures Awake(DispatcherStep(s))
  {
    var s' := DispatcherStep(s);
    assert s'.pc == Waiting(Dormant) ==> s'.pending == [];
    forall k: nat | k < |s'.cars|
      ensures CarAwake(s', k)
    {
      assert CarAwake(s, k);
      if s.pc.Offer? && Flagged(s, s.pc.e) {
        ChangeCarKeepsAwake(s, s.pc.e, Refuse(s.pc.hand), k);
      } else if s.pc.Notify? {
        ChangeCarKeepsAwake(s, s.pc.e, Rouse, k);
      } else if s.pc.Push? {
        assert k != s.pc.e ==> s'.cars[k] == s.cars[k];
      } else {
        assert s'.cars == s.cars;
      }
    }
  }

  lemma NextKeepsAwake(s: System, a: Action)
    requires Awake(s) && PcInRange(s) && Enabled(s, a)
    ensures Awake(Next(s, a))
  {
    match a
    case Dispatch => DispatcherKeepsAwake(s);
    case OnCar(e, act) =>
      forall k: nat | k < |s.cars|
        ensures CarAwake(Next(s, a), k)
      {
        assert CarAwake(s, k);
        ChangeCarKeepsAwake(s, e, act, k);
      }
    case _ =>
      forall k: nat | k < |s.cars|
        ensures CarAwake(Next(s, a), k)
      {
        assert CarAwake(s, k);
      }
  }

  // ----- Shutdown -----

  /** Until it is told to halt, the dispatcher stays in its loop and never takes from an empty queue. */
  predicate Busy(s: System) {
    s.running ==> !s.pc.Left? && (s.pc == Waiting(Recheck) || s.pc.Take? ==> s.pending != [])
  }

  lemma NextKeepsBusy(s: System, a: Action)
    requires Busy(s) && Enabled(s, a)
    ensures Busy(Next(s, a))
  {
  }

  /** Once `stop` has notified, the dispatcher neither sleeps nor can fall asleep again. */
  predicate NotStranded(s: System) {
    s.haltNotified ==> !s.running && s.pc != Waiting(Dormant) && s.pc != Waiting(CheckPending)
  }

  lemma NextKeepsNotStranded(s: System, a: Action)
    requires NotStranded(s) && Enabled(s, a)
    ensures NotStranded(Next(s, a))
  {
  }

  /** Dispatcher steps left before it is out of its loop, once `running` is false. */
  function StepsToExit(s: System): nat {
    var n := |s.cars|;
    match s.pc
    case Left => 0
    case Waiting(at) =>
      (match at case LoopHead => 1 case Recheck => 1 case CheckRunning => 2 case CheckPending => 2 case Dormant => 3)
    case Take => n + 6
    case Scan(_, k, _) => if k <= n then n - k + 5 else 5
    case Offer(_, _) => 4
    case Push(_, _) => 3
    case Notify(_) => 2
    case Requeue(_) => 2
  }

  lemma HaltedDispatcherLeaves(s: System, a: Action)
    requires s.haltNotified && NotStranded(s) && Enabled(s, a)
    ensures Next(s, a).haltNotified
    ensures StepsToExit(Next(s, a)) + (if a.Dispatch? then 1 else 0) <= StepsToExit(s)
  {
  }

  function DispatcherSteps(run: seq<Action>): nat {
    if run == [] then 0 else (if run[0].Dispatch? then 1 else 0) + DispatcherSteps(run[1..])
  }

  lemma {:induction false} HaltedRunLeaves(s: System, run: seq<Action>)
    requires s.haltNotified && NotStranded(s) && Feasible(s, run)
    ensures Run(s, run).haltNotified && NotStranded(Run(s, run))
    ensures DispatcherSteps(run) + StepsToExit(Run(s, run)) <= StepsToExit(s)
    decreases |run|
  {
    if run != [] {
      HaltedDispatcherLeaves(s, run[0]);
      NextKeepsNotStranded(s, run[0]);
      HaltedRunLeaves(Next(s, run[0]), run[1..]);
    }
  }
}

/** What an emergency costs, and what it leaves untouched. */
module Emergency {
  import opened Domain
  import opened CarProtocol
  import opened SystemProtocol
  import opened Conservation

  function AbortedCount(served: seq<Outcome>): nat {
    if served == [] then 0
    else (if served[|served| - 1].completed then 0 else 1) + AbortedCount(served[..|served| - 1])
  }

  lemma AbortedExtends(served: seq<Outcome>, o: Outcome)
    ensures AbortedCount(served + [o]) == AbortedCount(served) + if o.completed then 0 else 1
  {
  }

  /** A request in hand, or about to be popped, that an emergency could still spoil. */
  predicate AtRisk(c: Car) {
    || c.pc.Pop? || c.pc.Pickup?
    || (c.pc.Deliver? && !c.pc.missed) || (c.pc.OnLeg? && !c.pc.leg.missed)
  }

  /** Requests aborted so far, and the one in hand if its leg was cut short: it cannot complete any more. */
  function Doomed(c: Car): nat {
    AbortedCount(c.log.served) + if MissedInHand(c) then 1 else 0
  }

  /** An emergency or a shutdown is about to spoil a request. */
  predicate Exposed(c: Car) {
    (AtRisk(c) && (c.flag || !c.running)) || (c.pc == Polling(TestFlag) && !c.running)
  }

  /** The doomed requests, plus the one already bound to be. */
  function AbortDebt(c: Car): nat {
    Doomed(c) + if Exposed(c) then 1 else 0
  }

  function Halts(c: Car): nat {
    if c.running then 0 else 1
  }

  lemma FinishAborts(c: Car, r: Request, completed: bool)
    ensures AbortDebt(Finish(c, r, completed)) == AbortedCount(c.log.served) + if completed then 0 else 1
  {
  }

  lemma LegAborts(c: Car, at: LegPoint, l: Leg)
    requires c.pc == OnLeg(at, l)
    ensures AbortDebt(LegStep(c, at, l)) <= AbortDebt(c)
  {
    match at
    case LoopTest => FinishAborts(c, l.hand, !(l.missed || c.floor != l.target));
    case LoopRunning => FinishAborts(c, l.hand, !(l.missed || c.floor != l.target));
    case _ =>
  }

  /** Only opening a new emergency window, or the one shutdown, can add to the debt. */
  lemma CarNextAborts(c: Car, a: CarAction)
    ensures AbortDebt(CarNext(c, a)) - AbortDebt(c)
            <= CarNext(c, a).log.windows - c.log.windows + Halts(CarNext(c, a)) - Halts(c)
  {
    if a.Work? {
      WorkerAborts(c);
      WorkerKeepsFlags(c);
    }
  }

  lemma WorkerAborts(c: Car)
    ensures AbortDebt(WorkerStep(c)) <= AbortDebt(c)
  {
    hide AbortedCount, LegStep;
    match c.pc
    case OnLeg(at, l) => LegAborts(c, at, l);
    case Deliver(r, missed) => FinishAborts(c, r, !missed);
    case Polling(_) =>
    case Pickup(_) =>
    case _ =>
  }

  /** The dispatcher has seen elevator `e` unflagged and may still offer it a request. */
  predicate Candidate(s: System, e: nat) {
    (s.pc.Scan? && s.pc.cursor.best == Some(e)) || (s.pc.Offer? && s.pc.e == e)
  }

  function RejectDebt(s: System, e: nat): nat
    requires e < |s.cars|
  {
    |s.cars[e].log.rejected| + if s.cars[e].flag && Candidate(s, e) then 1 else 0
  }

  lemma FlagRises(c: Car, a: CarAction)
    ensures CarNext(c, a).flag && !c.flag ==> CarNext(c, a).log.windows == c.log.windows + 1
    ensures CarNext(c, a).log.windows >= c.log.windows
    ensures CarNext(c, a).running ==> c.running
  {
  }

  lemma NextRejects(s: System, a: Action, e: nat)
    requires e < |s.cars| && Enabled(s, a)
    ensures |Next(s, a).cars| == |s.cars|
    ensures RejectDebt(Next(s, a), e) - RejectDebt(s, e) <= Next(s, a).cars[e].log.windows - s.cars[e].log.windows
  {
    NextOnCar(s, a, e);
    var act := ActionOn(s, a, e);
    if act.Some? {
      CarNextOffers(s.cars[e], act.value);
      FlagRises(s.cars[e], act.value);
    }
    NextCandidate(s, a, e);
    hide Next, Candidate;
  }

  /** Only an unflagged elevator becomes a candidate, and a refusal ends that. */
  lemma NextCandidate(s: System, a: Action, e: nat)
    requires e < |s.cars| && Enabled(s, a)
    ensures Candidate(Next(s, a), e) ==> Candidate(s, e) || !s.cars[e].flag
    ensures var act := ActionOn(s, a, e);
            act.Some? && act.value.Refuse? ==> s.cars[e].flag && Candidate(s, e) && !Candidate(Next(s, a), e)
  {
    if a.Dispatch? {
      match s.pc
      case Scan(_, _, _) =>
      case Offer(_, _) =>
      case Waiting(_) =>
      case _ =>
    }
  }

  /** In each of the two places where a request can get lost, at most one is already bound to be. */
  lemma DebtIsAtMostOne(s: System, e: nat)
    requires e < |s.cars|
    ensures AbortDebt(s.cars[e]) <= AbortedCount(s.cars[e].log.served) + 1
    ensures RejectDebt(s, e) <= |s.cars[e].log.rejected| + 1
  {
  }

  function Lost(c: Car): nat {
    AbortedCount(c.log.served) + |c.log.rejected|
  }

  lemma NextAborts(s: System, a: Action, e: nat)
    requires e < |s.cars|
    ensures |Next(s, a).cars| == |s.cars|
    ensures AbortDebt(Next(s, a).cars[e]) - AbortDebt(s.cars[e])
            <= Next(s, a).cars[e].log.windows - s.cars[e].log.windows + Halts(Next(s, a).cars[e]) - Halts(s.cars[e])
  {
    NextOnCar(s, a, e);
    var act := ActionOn(s, a, e);
    if act.Some? {
      CarNextAborts(s.cars[e], act.value);
    }
  }

  lemma NextGoesOn(s: System, a: Action, e: nat)
    requires e < |s.cars|
    ensures |Next(s, a).cars| == |s.cars|
    ensures s.cars[e].log.windows <= Next(s, a).cars[e].log.windows
    ensures Next(s, a).cars[e].flag && !s.cars[e].flag ==> s.cars[e].log.windows < Next(s, a).cars[e].log.windows
    ensures Next(s, a).cars[e].running ==> s.cars[e].running
  {
    NextOnCar(s, a, e);
    var act := ActionOn(s, a, e);
    if act.Some? {
      FlagRises(s.cars[e], act.value);
    }
  }

  /**
   Over any run from any state: besides the request already bound to be, the
   elevator refuses at most one request for every emergency window opened during
   the run, and aborts at most one for every such window and one for a shutdown.
   */
  lemma {:induction false} BoundedLoss(s: System, run: seq<Action>, e: nat)
    requires e < |s.cars| && Feasible(s, run)
    ensures |Run(s, run).cars| == |s.cars|
    ensures RejectDebt(Run(s, run), e) - RejectDebt(s, e)
            <= Run(s, run).cars[e].log.windows - s.cars[e].log.windows
    ensures AbortDebt(Run(s, run).cars[e]) - AbortDebt(s.cars[e])
            <= Run(s, run).cars[e].log.windows - s.cars[e].log.windows + Halts(Run(s, run).cars[e]) - Halts(s.cars[e])
    decreases |run|
  {
    if run != [] {
      NextRejects(s, run[0], e);
      NextAborts(s, run[0], e);
      BoundedLoss(Next(s, run[0]), run[1..], e);
    }
  }

  /** In numbers: one per window opened and one more of each kind, and one aborted for a shutdown. */
  lemma LossDuringRun(s: System, run: seq<Action>, e: nat)
    requires e < |s.cars| && Feasible(s, run)
    ensures |Run(s, run).cars| == |s.cars|
    ensures var c, c' := s.cars[e], Run(s, run).cars[e];
            var added := c'.log.windows - c.log.windows;
            && |c'.log.rejected| <= |c.log.rejected| + added + 1
            && AbortedCount(c'.log.served) <= AbortedCount(c.log.served) + added + 1 + Halts(c') - Halts(c)
  {
    BoundedLoss(s, run, e);
    DebtIsAtMostOne(s, e);
  }

  /** The loop test of `moveToFloor` fails short of the floor, on a leg that was still good. */
  predicate CutsShort(c: Car) {
    && c.pc.OnLeg? && !c.pc.leg.missed && c.floor != c.pc.leg.target
    && ((c.pc.at.LoopTest? && c.flag) || (c.pc.at.LoopRunning? && !c.running))
  }

  lemma LegDooms(c: Car, at: LegPoint, l: Leg, numFloors: int)
    requires c.pc == OnLeg(at, l) && MotionInv(c, numFloors)
    ensures Doomed(LegStep(c, at, l)) == Doomed(c) + if CutsShort(c) then 1 else 0
  {
    hide AbortedCount;
    AbortedExtends(c.log.served, Outcome(l.hand, !(l.missed || c.floor != l.target)));
    match at
    case LoopTest =>
    case LoopRunning =>
    case _ =>
  }

  lemma CarNextDooms(c: Car, a: CarAction, numFloors: int)
    requires CarInv(c, numFloors)
    ensures Doomed(CarNext(c, a)) == Doomed(c) + if a.Work? && CutsShort(c) then 1 else 0
  {
    hide AbortedCount, FlowInv, LegStep;
    if a.Work? {
      match c.pc
      case OnLeg(at, l) => LegDooms(c, at, l, numFloors);
      case Deliver(r, missed) => AbortedExtends(c.log.served, Outcome(r, !missed));
      case Pickup(_) =>
      case Polling(_) =>
      case _ =>
    }
  }

  /**
   A request is lost at exactly two points: when `addRequest` finds the flag set
   after the scan saw it clear, and when the loop test fails short of the floor.
   */
  lemma LossIsExactlyThere(s: System, a: Action, e: nat)
    requires e < |s.cars| && Enabled(s, a) && CarInv(s.cars[e], s.numFloors)
    ensures |Next(s, a).cars| == |s.cars|
    ensures |Next(s, a).cars[e].log.rejected|
            == |s.cars[e].log.rejected|
               + if a.Dispatch? && s.pc.Offer? && s.pc.e == e && s.cars[e].flag then 1 else 0
    ensures Doomed(Next(s, a).cars[e])
            == Doomed(s.cars[e]) + if a == OnCar(e, Work) && CutsShort(s.cars[e]) then 1 else 0
  {
    NextOnCar(s, a, e);
    var act := ActionOn(s, a, e);
    if act.Some? {
      CarNextOffers(s.cars[e], act.value);
      CarNextDooms(s.cars[e], act.value, s.numFloors);
    }
  }

  // ----- While the flag stays set -----

  predicate KeepsFlag(run: seq<Action>, e: nat) {
    forall i :: 0 <= i < |run| ==> run[i] != OnCar(e, LowerFlag)
  }

  /** The floor move, the pop and the push that may already be past their test of the flag. */
  function MoveDue(c: Car): nat {
    if c.pc.OnLeg? && (c.pc.at.LoopRunning? || c.pc.at.FloorStep?) then 1 else 0
  }

  function PopDue(c: Car): nat {
    if c.pc.Pop? && c.queue != [] then 1 else 0
  }

  function PushDue(s: System, e: nat): nat {
    if s.pc.Push? && s.pc.e == e then 1 else 0
  }

  lemma FlaggedCarStops(c: Car, a: CarAction)
    requires c.flag && !a.LowerFlag? && !(a.Accept? && HoldsMutex(c.pc))
    ensures CarNext(c, a).flag
    ensures |CarNext(c, a).log.trail| + MoveDue(CarNext(c, a)) <= |c.log.trail| + MoveDue(c)
    ensures |Taken(CarNext(c, a))| + PopDue(CarNext(c, a)) <= |Taken(c)| + PopDue(c)
    ensures |Taken(CarNext(c, a))| >= |Taken(c)|
  {
    if a.Work? {
      match c.pc
      case OnLeg(at, l) =>
        match at {
          case LoopTest =>
          case LoopRunning =>
          case _ =>
        }
      case Polling(at) =>
      case _ =>
    }
  }

  lemma NextFlagged(s: System, a: Action, e: nat)
    requires e < |s.cars| && Enabled(s, a) && s.cars[e].flag && a != OnCar(e, LowerFlag)
    ensures |Next(s, a).cars| == |s.cars| && Next(s, a).cars[e].flag
    ensures |Next(s, a).cars[e].log.trail| + MoveDue(Next(s, a).cars[e]) <= |s.cars[e].log.trail| + MoveDue(s.cars[e])
    ensures |Taken(Next(s, a).cars[e])| + PopDue(Next(s, a).cars[e]) <= |Taken(s.cars[e])| + PopDue(s.cars[e])
    ensures |Taken(Next(s, a).cars[e])| >= |Taken(s.cars[e])|
  {
    NextOnCar(s, a, e);
    var act := ActionOn(s, a, e);
    if act.Some? {
      FlaggedCarStops(s.cars[e], act.value);
    }
  }

  lemma NextPushes(s: System, a: Action, e: nat)
    requires e < |s.cars| && Enabled(s, a) && s.cars[e].flag
    ensures |Next(s, a).cars| == |s.cars|
    ensures s.cars[e].log.handed <= Next(s, a).cars[e].log.handed
    ensures |Next(s, a).cars[e].log.handed| + PushDue(Next(s, a), e) <= |s.cars[e].log.handed| + PushDue(s, e)
  {
    NextOnCar(s, a, e);
    var act := ActionOn(s, a, e);
    if act.Some? {
      CarNextOffers(s.cars[e], act.value);
    }
    if a.Dispatch? {
      match s.pc
      case Offer(_, _) =>
      case Waiting(_) =>
      case _ =>
    }
  }

  lemma {:induction false} FlaggedRun(s: System, run: seq<Action>, e: nat)
    requires e < |s.cars| && Feasible(s, run) && s.cars[e].flag && KeepsFlag(run, e)
    ensures e < |Run(s, run).cars|
    ensures |Run(s, run).cars[e].log.trail| <= |s.cars[e].log.trail| + MoveDue(s.cars[e])
    ensures |Taken(s.cars[e])| <= |Taken(Run(s, run).cars[e])| <= |Taken(s.cars[e])| + PopDue(s.cars[e])
    ensures s.cars[e].log.handed <= Run(s, run).cars[e].log.handed
    ensures |Run(s, run).cars[e].log.handed| <= |s.cars[e].log.handed| + PushDue(s, e)
    decreases |run|
  {
    if run != [] {
      NextFlagged(s, run[0], e);
      NextPushes(s, run[0], e);
      FlaggedRun(Next(s, run[0]), run[1..], e);
    }
  }

  /** Not asleep, nor past reading the flag as clear in the wait. */
  predicate Polls(c: Car) {
    c.pc != Polling(Asleep) && c.pc != Polling(WaitQueue)
  }

  lemma FlaggedWorkerPolls(c: Car, a: CarAction)
    requires c.flag && Polls(c)
    ensures Polls(CarNext(c, a))
  {
    if a.Work? {
      match c.pc
      case OnLeg(_, _) =>
      case _ =>
    }
  }

  /**
   While the flag stays set a worker awake does not fall asleep: it finds the
   flag cleared by itself, which is as well, as a release notifies nobody.
   */
  lemma {:induction false} FlaggedWorkerStaysAwake(s: System, run: seq<Action>, e: nat)
    requires e < |s.cars| && Feasible(s, run) && s.cars[e].flag && KeepsFlag(run, e) && Polls(s.cars[e])
    ensures e < |Run(s, run).cars| && Polls(Run(s, run).cars[e])
    decreases |run|
  {
    if run != [] {
      NextFlagged(s, run[0], e);
      NextOnCar(s, run[0], e);
      if ActionOn(s, run[0], e).Some? {
        FlaggedWorkerPolls(s.cars[e], ActionOn(s, run[0], e).value);
      }
      FlaggedWorkerStaysAwake(Next(s, run[0]), run[1..], e);
    }
  }
}

/** A building-wide emergency: the dispatcher cycles through the queue without losing its place. */
module Rotation {
  import opened Domain
  import opened CarProtocol
  import opened SystemProtocol
  import opened Conservation
  import opened Fifo
  import opened Emergency

  function RotateBy(q: seq<Request>, k: nat): seq<Request> {
    if k == 0 then q else TurnOnce(RotateBy(q, k - 1))
  }

  function TurnOnce(q: seq<Request>): seq<Request> {
    if q == [] then q else q[1..] + [q[0]]
  }

  function RotatedTo(q: seq<Request>, j: nat): seq<Request>
    requires j <= |q|
  {
    q[j..] + q[..j]
  }

  lemma TurnMovesOn(q: seq<Request>, j: nat)
    requires j < |q|
    ensures TurnOnce(RotatedTo(q, j)) == RotatedTo(q, j + 1)
  {
  }

  lemma FullTurn(q: seq<Request>)
    ensures RotatedTo(q, |q|) == RotatedTo(q, 0) == q
  {
  }

  /** The position reached by moving on `k` times from the front of `n`, starting over at the end. */
  function Wrap(k: nat, n: nat): (j: nat)
    requires n > 0
    ensures j < n
  {
    if k == 0 then 0 else if Wrap(k - 1, n) + 1 < n then Wrap(k - 1, n) + 1 else 0
  }

  lemma {:induction false} RotateByIsRotation(q: seq<Request>, k: nat)
    requires q != []
    ensures RotateBy(q, k) == RotatedTo(q, Wrap(k, |q|))
  {
    FullTurn(q);
    if k > 0 {
      RotateByIsRotation(q, k - 1);
      TurnMovesOn(q, Wrap(k - 1, |q|));
    }
  }

  lemma {:induction false} WrapIsRemainder(k: nat, n: nat)
    requires n > 0
    ensures Wrap(k, n) == k % n
  {
    if k > 0 {
      WrapIsRemainder(k - 1, n);
      NextRemainder(k - 1, n);
    }
  }

  lemma NextRemainder(k: nat, n: nat)
    requires n > 0
    ensures (k + 1) % n == if k % n + 1 < n then k % n + 1 else 0
  {
    var d, j := k / n, k % n;
    assert k == n * d + j;
    if j + 1 < n {
      RemainderIsUnique(k + 1, n, d, j + 1);
    } else {
      assert n * (d + 1) == n * d + n;
      RemainderIsUnique(k + 1, n, d + 1, 0);
    }
  }

  lemma RemainderIsUnique(k: nat, n: nat, d: nat, j: nat)
    requires j < n && k == n * d + j
    ensures k % n == j
  {
    var x := d - k / n;
    assert n * x == n * d - n * (k / n) == k % n - j;
    MultipleIsFar(n, x);
  }

  lemma MultipleIsFar(n: int, x: int)
    requires n >= 0
    ensures x >= 1 ==> n * x >= n
    ensures x <= -1 ==> n * x <= -n
  {
  }

  ghost predicate AllFlagged(s: System) {
    forall e :: 0 <= e < |s.cars| ==> s.cars[e].flag
  }

  /** No elevator is released. */
  predicate KeepsFlags(a: Action) {
    !(a.OnCar? && a.act.LowerFlag?)
  }

  predicate KeepsFlagsThroughout(run: seq<Action>)
    decreases |run|
  {
    run == [] || (KeepsFlags(run[0]) && KeepsFlagsThroughout(run[1..]))
  }

  /** And no new request arrives. */
  predicate Holds(a: Action) {
    KeepsFlags(a) && !a.Submit?
  }

  predicate HoldsThroughout(run: seq<Action>)
    decreases |run|
  {
    run == [] || (Holds(run[0]) && HoldsThroughout(run[1..]))
  }

  /** The dispatcher has nobody to hand a request to. */
  ghost predicate Circling(s: System) {
    && AllFlagged(s)
    && (s.pc.Scan? ==> s.pc.cursor.best.None?)
    && !s.pc.Offer? && !s.pc.Push? && !s.pc.Notify?
  }

  /** Its state while it goes round `queue`. */
  ghost predicate Rotating(s: System, queue: seq<Request>) {
    Circling(s) && DispatcherHand(s.pc) + s.pending == queue
  }

  lemma NextKeepsFlags(s: System, a: Action)
    requires AllFlagged(s) && KeepsFlags(a)
    ensures AllFlagged(Next(s, a))
  {
    forall e: nat | e < |Next(s, a).cars|
      ensures Next(s, a).cars[e].flag
    {
      if e < |s.cars| {
        NextOnCar(s, a, e);
        var act := ActionOn(s, a, e);
        if act.Some? && act.value.Work? {
          WorkerKeepsFlags(s.cars[e]);
        }
      } else {
        if a.Dispatch? {
          match s.pc
          case Waiting(_) =>
          case _ =>
        }
      }
    }
  }

  lemma RequeueTurns(s: System)
    requires s.pc.Requeue?
    ensures DispatcherHand(DispatcherStep(s).pc) + DispatcherStep(s).pending
            == TurnOnce(DispatcherHand(s.pc) + s.pending)
  {
  }

  lemma OthersKeepQueue(s: System)
    requires !s.pc.Offer? && !s.pc.Push? && !s.pc.Notify? && !s.pc.Requeue?
    requires s.pc.Scan? ==> s.pc.cursor.best.None?
    ensures DispatcherHand(DispatcherStep(s).pc) + DispatcherStep(s).pending == DispatcherHand(s.pc) + s.pending
    ensures DispatcherStep(s).requeued == s.requeued
  {
  }

  lemma ScanFindsNothing(s: System)
    requires Circling(s)
    ensures var pc := DispatcherStep(s).pc;
            !pc.Offer? && !pc.Push? && !pc.Notify? && (pc.Scan? ==> pc.cursor.best.None?)
  {
  }

  lemma NextKeepsCircling(s: System, a: Action)
    requires Circling(s) && KeepsFlags(a)
    ensures Circling(Next(s, a))
  {
    NextKeepsFlags(s, a);
    if a.Dispatch? {
      ScanFindsNothing(s);
    }
  }

  lemma NextRotates(s: System, a: Action, queue: seq<Request>, turns: nat)
    requires Rotating(s, RotateBy(queue, turns)) && Holds(a)
    ensures s.requeued <= Next(s, a).requeued
    ensures Rotating(Next(s, a), RotateBy(queue, turns + Next(s, a).requeued - s.requeued))
  {
    NextKeepsCircling(s, a);
    if a.Dispatch? {
      DispatcherRotates(s);
    } else {
      OthersKeepRotation(s, a);
    }
  }

  lemma OthersKeepRotation(s: System, a: Action)
    requires !a.Submit? && !a.Dispatch?
    ensures Next(s, a).requeued == s.requeued && Next(s, a).pending == s.pending
    ensures DispatcherHand(Next(s, a).pc) == DispatcherHand(s.pc)
    ensures Next(s, a).dispatched == s.dispatched
  {
  }

  lemma DispatcherRotates(s: System)
    requires Circling(s)
    ensures var s' := DispatcherStep(s);
            && s'.requeued == s.requeued + (if s.pc.Requeue? then 1 else 0)
            && DispatcherHand(s'.pc) + s'.pending
               == if s.pc.Requeue? then TurnOnce(DispatcherHand(s.pc) + s.pending)
                  else DispatcherHand(s.pc) + s.pending
  {
    if s.pc.Requeue? {
      RequeueTurns(s);
    } else {
      OthersKeepQueue(s);
    }
  }

  lemma {:induction false} RunRotates(s: System, run: seq<Action>, queue: seq<Request>, turns: nat)
    requires Rotating(s, RotateBy(queue, turns)) && HoldsThroughout(run)
    ensures s.requeued <= Run(s, run).requeued
    ensures Rotating(Run(s, run), RotateBy(queue, turns + Run(s, run).requeued - s.requeued))
    decreases |run|
  {
    if run != [] {
      NextRotates(s, run[0], queue, turns);
      RunRotates(Next(s, run[0]), run[1..], queue, turns + Next(s, run[0]).requeued - s.requeued);
    }
  }

  /**
   From the dispatcher's loop head, while every elevator stays flagged and
   nothing arrives: after k requests put back, the queue led by the request in
   hand is the original one rotated by k.
   */
  lemma FullEmergencyRotatesQueue(s: System, run: seq<Action>, t: System)
    requires AllFlagged(s) && s.pc == Waiting(LoopHead) && s.pending != []
    requires Feasible(s, run) && HoldsThroughout(run) && t == Run(s, run)
    ensures s.requeued <= t.requeued
    ensures var k := (t.requeued - s.requeued) % |s.pending|;
            DispatcherHand(t.pc) + t.pending == RotatedTo(s.pending, k)
  {
    StartsRotating(s);
    RunRotates(s, run, s.pending, 0);
    RotatingQueue(t, s.pending, t.requeued - s.requeued);
  }

  lemma StartsRotating(s: System)
    requires AllFlagged(s) && s.pc == Waiting(LoopHead)
    ensures Rotating(s, RotateBy(s.pending, 0))
  {
  }

  lemma RotatingQueue(t: System, queue: seq<Request>, turns: nat)
    requires Rotating(t, RotateBy(queue, turns)) && queue != []
    ensures DispatcherHand(t.pc) + t.pending == RotatedTo(queue, turns % |queue|)
  {
    RotateByIsRotation(queue, turns);
    WrapIsRemainder(turns, |queue|);
  }

  // ----- With arrivals -----

  function Arrival(a: Action): multiset<Request> {
    if a.Submit? then multiset{a.request} else multiset{}
  }

  function Arrivals(run: seq<Action>): multiset<Request> {
    if run == [] then multiset{} else Arrival(run[0]) + Arrivals(run[1..])
  }

  lemma DispatcherKeepsContents(s: System)
    requires Circling(s)
    ensures Undecided(DispatcherStep(s)) == Undecided(s)
    ensures DispatcherStep(s).dispatched == s.dispatched
  {
    OthersKeepHistory(s);
    hide Undecided, DispatcherStep;
    DispatcherMoves(s);
    AddNothing(Undecided(DispatcherStep(s)));
  }

  lemma NextKeepsContents(s: System, a: Action)
    requires Circling(s) && KeepsFlags(a)
    ensures Undecided(Next(s, a)) == Undecided(s) + Arrival(a)
    ensures Next(s, a).dispatched == s.dispatched
  {
    AddNothing(Undecided(s));
    if a.Dispatch? {
      DispatcherKeepsContents(s);
    } else if a.Submit? {
      SubmitAdds(s, a.request);
    } else {
      OthersKeepRotation(s, a);
    }
  }

  lemma SubmitAdds(s: System, r: Request)
    ensures Undecided(Next(s, Submit(r))) == Undecided(s) + multiset{r}
  {
  }

  lemma {:induction false} CirclingKeepsContents(s: System, run: seq<Action>)
    requires Circling(s) && KeepsFlagsThroughout(run)
    ensures Undecided(Run(s, run)) == Undecided(s) + Arrivals(run)
    ensures Run(s, run).dispatched == s.dispatched
    decreases |run|
  {
    if run != [] {
      NextKeepsCircling(s, run[0]);
      NextKeepsContents(s, run[0]);
      CirclingKeepsContents(Next(s, run[0]), run[1..]);
      AddUpArrivals(Undecided(s), Arrival(run[0]), Arrivals(run[1..]));
    }
  }

  lemma AddUpArrivals<T>(u: multiset<T>, a: multiset<T>, b: multiset<T>)
    ensures (u + a) + b == u + (a + b)
  {
  }

  /**
   With requests still arriving, and from any moment at which the dispatcher has
   nobody to hand its request to, nothing leaves the queue: its contents, led by
   the request in hand, are the original ones and the arrivals, and no elevator
   is handed anything.
   */
  lemma FullEmergencyKeepsContents(s: System, run: seq<Action>, t: System)
    requires Circling(s) && Feasible(s, run) && KeepsFlagsThroughout(run) && t == Run(s, run)
    ensures multiset(DispatcherHand(t.pc) + t.pending)
         == multiset(DispatcherHand(s.pc) + s.pending) + Arrivals(run)
    ensures t.dispatched == s.dispatched
  {
    CirclingKeepsContents(s, run);
    assert multiset(DispatcherHand(t.pc) + t.pending) == Undecided(t);
    assert multiset(DispatcherHand(s.pc) + s.pending) == Undecided(s);
  }

  // ----- With an elevator already chosen -----

  /** While elevator `e` is still the candidate the same request is in hand; otherwise it has refused it. */
  ghost predicate Settled(s: System, t: System, e: nat)
    requires e < |s.cars| && |t.cars| == |s.cars|
  {
    && (Candidate(t, e) ==> Candidate(s, e) && DispatcherHand(t.pc) == DispatcherHand(s.pc))
    && t.cars[e].log.rejected
       == s.cars[e].log.rejected + if Candidate(s, e) && !Candidate(t, e) then DispatcherHand(s.pc) else []
  }

  lemma DispatcherSettles(s: System, e: nat)
    requires PcInRange(s) && AllFlagged(s) && e < |s.cars|
    ensures |DispatcherStep(s).cars| == |s.cars| && Settled(s, DispatcherStep(s), e)
  {
    match s.pc
    case Scan(_, _, _) =>
    case Offer(_, _) =>
    case Waiting(_) =>
    case _ =>
  }

  lemma NextSettles(s: System, a: Action, e: nat)
    requires Wf(s) && AllFlagged(s) && Enabled(s, a) && e < |s.cars|
    ensures |Next(s, a).cars| == |s.cars| && Settled(s, Next(s, a), e)
  {
    if a.Dispatch? {
      DispatcherSettles(s, e);
    } else {
      NextOnCar(s, a, e);
      OthersKeepCandidate(s, a, e);
      if ActionOn(s, a, e).Some? {
        CarNextOffers(s.cars[e], ActionOn(s, a, e).value);
      }
    }
  }

  lemma OthersKeepCandidate(s: System, a: Action, e: nat)
    requires !a.Dispatch?
    ensures Candidate(Next(s, a), e) == Candidate(s, e)
    ensures DispatcherHand(Next(s, a).pc) == DispatcherHand(s.pc)
  {
  }

  lemma {:induction false} RunSettles(s: System, run: seq<Action>, e: nat)
    requires Wf(s) && AllFlagged(s) && Feasible(s, run) && KeepsFlagsThroughout(run) && e < |s.cars|
    ensures |Run(s, run).cars| == |s.cars| && Settled(s, Run(s, run), e)
    decreases |run|
  {
    if run != [] {
      NextSettles(s, run[0], e);
      NextKeepsWf(s, run[0]);
      NextKeepsFlags(s, run[0]);
      RunSettles(Next(s, run[0]), run[1..], e);
    }
  }

  /**
   From any moment at which all elevators are flagged, for as long as they stay
   so: an elevator refuses a request if and only if it was the candidate at that
   moment and is no longer, and then exactly the one the dispatcher had in hand.
   */
  lemma FullEmergencyRefusesExactly(s: System, run: seq<Action>, t: System, e: nat)
    requires Wf(s) && AllFlagged(s) && Feasible(s, run) && KeepsFlagsThroughout(run) && t == Run(s, run)
    requires e < |s.cars|
    ensures |t.cars| == |s.cars|
    ensures t.cars[e].log.rejected != s.cars[e].log.rejected <==> Candidate(s, e) && !Candidate(t, e)
    ensures Candidate(s, e) && !Candidate(t, e)
            ==> t.cars[e].log.rejected == s.cars[e].log.rejected + DispatcherHand(s.pc)
    ensures Candidate(t, e) ==> Candidate(s, e) && DispatcherHand(t.pc) == DispatcherHand(s.pc)
  {
    RunSettles(s, run, e);
    assert Candidate(s, e) ==> |DispatcherHand(s.pc)| == 1;
  }
}

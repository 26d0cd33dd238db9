/** Order of service: each elevator is a FIFO server, and so is the dispatcher while no emergency is raised. */
module Fifo {
  import opened Domain
  import Dispatch
  import opened CarProtocol
  import opened SystemProtocol
  import opened Conservation

  /** No emergency has been raised so far. */
  ghost predicate Quiet(s: System) {
    forall e :: 0 <= e < |s.cars| ==> s.cars[e].log.windows == 0
  }

  function DispatchedRequests(dispatched: seq<Handover>): (rs: seq<Request>)
    ensures |rs| == |dispatched|
    ensures forall i :: 0 <= i < |rs| ==> rs[i] == dispatched[i].request
  {
    seq(|dispatched|, i requires 0 <= i < |dispatched| => dispatched[i].request)
  }

  /** While nothing is flagged the scan always has a candidate, so nothing is put back. */
  ghost predicate ScanFinds(s: System) {
    !s.pc.Requeue? && (s.pc.Scan? && s.pc.k > 0 ==> s.pc.cursor.best.Some?)
  }

  ghost predicate InOrder(s: System) {
    s.accepted == DispatchedRequests(s.dispatched) + DispatcherHand(s.pc) + s.pending
  }

  ghost predicate QuietInv(s: System) {
    Quiet(s) ==> ScanFinds(s) && InOrder(s)
  }

  lemma WindowsNeverShrink(c: Car, a: CarAction)
    ensures CarNext(c, a).log.windows >= c.log.windows
  {
  }

  lemma NextWasQuiet(s: System, a: Action)
    requires Quiet(Next(s, a))
    ensures Quiet(s)
  {
    forall e | 0 <= e < |s.cars|
      ensures s.cars[e].log.windows == 0
    {
      forall act: CarAction { WindowsNeverShrink(s.cars[e], act); }
      assert Next(s, a).cars[e].log.windows == 0;
      if a.Dispatch? {
        match s.pc
        case Waiting(_) =>
        case _ =>
      }
    }
  }

  /** The first look always succeeds: an in-range score is below the sentinel. */
  lemma FirstLookSucceeds(c: Car, floor: int, numFloors: int)
    requires Dispatch.Fits(numFloors) && InRange(c.floor, numFloors) && InRange(floor, numFloors) && !c.flag
    ensures Dispatch.Look(Dispatch.START, Seen(c, 0), 0, floor, numFloors).best == Some(0)
  {
  }

  lemma DispatcherKeepsScanFinds(s: System)
    requires Wf(s) && Quiet(s) && ScanFinds(s)
    ensures ScanFinds(DispatcherStep(s))
  {
    match s.pc
    case Scan(r, k, c) =>
      if k == 0 {
        assert CarInv(s.cars[0], s.numFloors);
        assert r in DispatcherHand(s.pc);
        FirstLookSucceeds(s.cars[0], r.fromFloor, s.numFloors);
      }
    case Waiting(_) =>
    case _ =>
  }

  lemma DispatchedExtends(dispatched: seq<Handover>, h: Handover)
    ensures DispatchedRequests(dispatched + [h]) == DispatchedRequests(dispatched) + [h.request]
  {
  }

  lemma DispatcherKeepsOrder(s: System)
    requires InOrder(s) && Wf(s) && Quiet(s) && ScanFinds(s)
    ensures InOrder(DispatcherStep(s))
  {
    var s' := DispatcherStep(s);
    if s.pc.Take? {
      if s.pending != [] {
        assert s.pending == [s.pending[0]] + s.pending[1..];
        assert DispatcherHand(s'.pc) == [s.pending[0]];
      }
    } else if s.pc.Push? {
      DispatchedExtends(s.dispatched, Handover(s.pc.e, s.pc.hand));
    } else {
      assert s.pc.Offer? ==> CarInv(s.cars[s.pc.e], s.numFloors);
      OthersStay(s);
      OthersKeepHistory(s);
    }
  }

  lemma OthersKeepHistory(s: System)
    requires !s.pc.Push?
    ensures DispatcherStep(s).accepted == s.accepted && DispatcherStep(s).dispatched == s.dispatched
  {
  }

  lemma NextKeepsQuietInv(s: System, a: Action)
    requires Wf(s) && QuietInv(s) && Enabled(s, a)
    ensures QuietInv(Next(s, a))
  {
    if Quiet(Next(s, a)) {
      NextWasQuiet(s, a);
      if a.Dispatch? {
        DispatcherKeepsScanFinds(s);
        DispatcherKeepsOrder(s);
      }
    }
  }
}

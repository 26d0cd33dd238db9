/** Which elevator the dispatcher picks when everything goes on moving while it looks from one to the next. */
module Selection {
  import opened Domain
  import Dispatch
  import opened CarProtocol
  import opened SystemProtocol
  import opened Conservation
  import opened WakeUps
  import opened Reachability

  /** What the step reads, if it is a look of the scan. */
  function Look(s: System, a: Action): seq<Dispatch.View> {
    if a.Dispatch? && s.pc.Scan? && s.pc.k < |s.cars| then [Seen(s.cars[s.pc.k], s.pc.k)] else []
  }

  /** The views read by the looks of a run, each at its own moment. */
  function Observed(s: System, run: seq<Action>): seq<Dispatch.View>
    decreases |run|
  {
    if run == [] then [] else Look(s, run[0]) + Observed(Next(s, run[0]), run[1..])
  }

  /** The scan stands after having read `seen`. */
  ghost predicate Scanning(s: System, r: Request, seen: seq<Dispatch.View>) {
    && s.pc.Scan? && s.pc.hand == r && s.pc.k == |seen| <= |s.cars|
    && Dispatch.OnFloors(seen, s.numFloors)
    && Dispatch.Scanned(seen, |seen|, r.fromFloor, s.numFloors, s.pc.cursor)
  }

  lemma LookScans(s: System, r: Request, seen: seq<Dispatch.View>)
    requires Wf(s) && Scanning(s, r, seen) && |seen| < |s.cars|
    ensures Scanning(DispatcherStep(s), r, seen + Look(s, Action.Dispatch)) && |Look(s, Action.Dispatch)| == 1
  {
    var k, v := s.pc.k, Seen(s.cars[s.pc.k], s.pc.k);
    assert CarInv(s.cars[k], s.numFloors);
    assert r in DispatcherHand(s.pc);
    assert (seen + [v])[..k] == seen == seen[..k];
    Dispatch.LookExtendsScan(seen + [v], k, r.fromFloor, s.numFloors, s.pc.cursor);
  }

  lemma OthersKeepScanning(s: System, a: Action, r: Request, seen: seq<Dispatch.View>)
    requires Scanning(s, r, seen) && !a.Dispatch?
    ensures Scanning(Next(s, a), r, seen + Look(s, a)) && Look(s, a) == []
  {
    NextKeepsSizes(s, a);
    assert Next(s, a).pc == s.pc;
    assert seen + Look(s, a) == seen;
  }

  lemma {:induction false} ScanGoesOn(s: System, run: seq<Action>, r: Request, seen: seq<Dispatch.View>)
    requires Wf(s) && Feasible(s, run) && Scanning(s, r, seen) && |seen| + DispatcherSteps(run) <= |s.cars|
    ensures |Run(s, run).cars| == |s.cars| && |Observed(s, run)| == DispatcherSteps(run)
    ensures Scanning(Run(s, run), r, seen + Observed(s, run))
    decreases |run|
  {
    hide Scanning, Wf, Look, Enabled;
    if run == [] {
      assert seen + Observed(s, run) == seen;
    } else {
      var a := run[0];
      if a.Dispatch? {
        LookScans(s, r, seen);
      } else {
        OthersKeepScanning(s, a, r, seen);
      }
      NextKeepsWf(s, a);
      NextKeepsSizes(s, a);
      ScanGoesOn(Next(s, a), run[1..], r, seen + Look(s, a));
      assert (seen + Look(s, a)) + Observed(Next(s, a), run[1..]) == seen + Observed(s, run);
    }
  }

  /**
   From the start of a scan, over any run in which the dispatcher takes a look at
   every elevator: its next step offers the request to the lexicographically best
   of the unflagged elevators it has seen, the first of equals, and puts it back
   if and only if it has seen all of them flagged.
   */
  lemma ScanPicksBest(s: System, run: seq<Action>, t: System)
    requires Reachable(s) && s.pc.Scan? && s.pc.k == 0
    requires Feasible(s, run) && t == Run(s, run) && DispatcherSteps(run) == |s.cars|
    ensures var r, views := s.pc.hand, Observed(s, run);
            && |views| == |s.cars|
            && match DispatcherStep(t).pc
               case Offer(r', e) => r' == r && Dispatch.IsBest(views, r.fromFloor, Some(e))
               case Requeue(r') => r' == r && Dispatch.IsBest(views, r.fromFloor, None)
               case _ => false
  {
    var views := Observed(s, run);
    ReachableIsWf(s);
    StartsScanning(s);
    ScanGoesOn(s, run, s.pc.hand, []);
    assert [] + views == views == views[..|views|];
  }

  lemma StartsScanning(s: System)
    requires Wf(s) && s.pc.Scan? && s.pc.k == 0
    ensures Scanning(s, s.pc.hand, [])
  {
  }
}

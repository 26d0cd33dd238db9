/** What the dispatcher's distance estimate promises about the floors an undisturbed elevator will enter. */
module Estimates {
  import opened Domain
  import Dispatch
  import opened CarProtocol
  import opened SystemProtocol
  import opened Travel
  import opened Reachability

  /** Floors an elevator with an empty queue enters before it stands at `floor` for its next request. */
  function MovesToReach(c: Car, floor: int): nat {
    |Remaining(c)| + Distance(EndOfHand(c), floor)
  }

  /** Anywhere in the movement loop, with no further leg to come. */
  predicate OnLastLeg(c: Car) {
    c.pc.OnLeg? && var l := c.pc.leg; l.delivering || l.hand.toFloor == 0 || l.hand.toFloor == l.hand.fromFloor
  }

  /** `moveToFloor` has stored the destination of the leg. */
  predicate DestinationStored(c: Car) {
    c.pc.OnLeg? && !c.pc.at.SetDirection? && !c.pc.at.SetStatus? && !c.pc.at.SetDestination?
  }

  /** The plain distance is never more than the real travel. */
  lemma DistanceIsLowerBound(c: Car, floor: int, numFloors: int)
    requires MotionInv(c, numFloors)
    ensures Distance(c.floor, floor) <= MovesToReach(c, floor)
  {
  }

  /**
   The estimate is exact with nothing in hand, unless the elevator still shows
   the heading of an abandoned leg; on the last leg and moving away, the
   penalised estimate is an upper bound on the real detour.
   */
  lemma EstimateIsSound(c: Car, floor: int, numFloors: int)
    requires MotionInv(c, numFloors) && InRange(floor, numFloors)
    ensures InHand(c.pc) == [] ==> MovesToReach(c, floor) == Distance(c.floor, floor)
    ensures InHand(c.pc) == [] && !Dispatch.MovingAway(Seen(c, 0), floor)
            ==> MovesToReach(c, floor) == Dispatch.Estimate(Seen(c, 0), floor, numFloors)
    ensures OnLastLeg(c)
            ==> MovesToReach(c, floor) == Distance(c.pc.leg.target, c.floor) + Distance(c.pc.leg.target, floor)
    ensures OnLastLeg(c) && Dispatch.MovingAway(Seen(c, 0), floor)
            ==> MovesToReach(c, floor) <= Dispatch.Estimate(Seen(c, 0), floor, numFloors)
    ensures DestinationStored(c) ==> c.pc.leg.target == c.dest
  {
  }

  /**
   Elevator `e` has an empty queue at `s`, is undisturbed until `t`, and at `t`
   stands past the pickup leg of `r`, the first request handed to it after `s`.
   */
  ghost predicate PicksUpNext(s: System, run: seq<Action>, t: System, e: nat, r: Request) {
    && Undisturbed(s, run, t, e)
    && var c, c' := s.cars[e], t.cars[e];
       && c.queue == []
       && |c.log.handed| < |c'.log.handed| && c'.log.handed[|c.log.handed|] == r
       && c'.pc.Deliver? && |c'.log.served| == |Taken(c)|
  }

  lemma TakenIsHanded(c: Car, numFloors: int)
    requires FlowInv(c, numFloors)
    ensures |Taken(c)| <= |c.log.handed|
    ensures forall i :: 0 <= i < |Taken(c)| ==> Taken(c)[i] == c.log.handed[i]
    ensures c.queue == [] ==> Taken(c) == c.log.handed
  {
  }

  lemma NextInHand(c: Car, c': Car, r: Request, numFloors: int)
    requires CarInv(c, numFloors) && CarInv(c', numFloors) && c.queue == []
    requires |c.log.handed| < |c'.log.handed| && c'.log.handed[|c.log.handed|] == r
    requires c'.pc.Deliver? && |c'.log.served| == |Taken(c)| && Unspoiled(c', FirstIntact(c))
    ensures c'.pc == Deliver(r, false) && c'.floor == r.fromFloor
    ensures |Taken(c)| <= |Taken(c')| && Taken(c')[|Taken(c)|..] == [r]
  {
    TakenIsHanded(c, numFloors);
    TakenIsHanded(c', numFloors);
    assert Taken(c')[|Taken(c)|] == c'.pc.hand;
  }

  lemma PlanAtPickup(c: Car, c': Car, r: Request)
    requires OnRoute(c', c) && c'.pc == Deliver(r, false) && c'.floor == r.fromFloor
    requires |Taken(c)| <= |Taken(c')| && Taken(c')[|Taken(c)|..] == [r]
    ensures c'.log.trail == c.log.trail + Remaining(c) + Path(EndOfHand(c), r.fromFloor)
  {
    var way, rest := Path(EndOfHand(c), r.fromFloor), Delivery(r.fromFloor, r);
    ItineraryAppends(EndOfHand(c), [], r);
    assert [] + [r] == [r];
    assert c'.log.trail + rest == c.log.trail + Remaining(c) + (way + rest);
    DropEnd(c'.log.trail, c.log.trail + Remaining(c), way, rest);
  }

  lemma DropEnd<T>(a: seq<T>, b: seq<T>, way: seq<T>, rest: seq<T>)
    requires a + rest == b + (way + rest)
    ensures a == b + way
  {
    assert b + (way + rest) == (b + way) + rest;
    assert |a| == |b + way|;
    assert a == (a + rest)[..|a|] == ((b + way) + rest)[..|a|] == b + way;
  }

  /** The floors it has entered meanwhile: those it still had ahead, then straight to the pickup floor. */
  lemma NextRequestIsReached(s: System, run: seq<Action>, t: System, e: nat, r: Request)
    requires PicksUpNext(s, run, t, e, r)
    ensures t.cars[e].pc == Deliver(r, false) && t.cars[e].floor == r.fromFloor
    ensures t.cars[e].log.trail == s.cars[e].log.trail + Remaining(s.cars[e]) + Path(EndOfHand(s.cars[e]), r.fromFloor)
    ensures |t.cars[e].log.trail| == |s.cars[e].log.trail| + MovesToReach(s.cars[e], r.fromFloor)
  {
    UndisturbedRoute(s, run, t, e);
    CarsAround(s, run, t, e);
    NextInHand(s.cars[e], t.cars[e], r, s.numFloors);
    PlanAtPickup(s.cars[e], t.cars[e], r);
  }

  lemma CarsAround(s: System, run: seq<Action>, t: System, e: nat)
    requires Undisturbed(s, run, t, e)
    ensures t.numFloors == s.numFloors
    ensures CarInv(s.cars[e], s.numFloors) && CarInv(t.cars[e], s.numFloors)
  {
    ReachableCar(s, e);
    ReachableIsSafe(s);
    RunKeepsSafe(s, run);
    RunKeepsSizes(s, run);
  }

  /**
   So the estimate read at `s` is compared with the floors really entered until
   the pickup: exact with nothing in hand, an upper bound when it charges an
   elevator on its last leg for moving away.
   */
  lemma TravelMeetsEstimate(s: System, run: seq<Action>, t: System, e: nat, r: Request)
    requires PicksUpNext(s, run, t, e, r)
    ensures var c, moves := s.cars[e], |t.cars[e].log.trail| - |s.cars[e].log.trail|;
            var estimate, away := Dispatch.Estimate(Seen(c, e), r.fromFloor, s.numFloors),
                                  Dispatch.MovingAway(Seen(c, e), r.fromFloor);
            && Distance(c.floor, r.fromFloor) <= moves
            && (InHand(c.pc) == [] ==> moves == Distance(c.floor, r.fromFloor) && (!away ==> moves == estimate))
            && (OnLastLeg(c) ==>
                  && moves == Distance(c.pc.leg.target, c.floor) + Distance(c.pc.leg.target, r.fromFloor)
                  && (DestinationStored(c) ==> c.pc.leg.target == c.dest)
                  && (away ==> moves <= estimate))
  {
    NextRequestIsReached(s, run, t, e, r);
    CarsAround(s, run, t, e);
    NextIsValid(s, run, t, e, r);
    DistanceIsLowerBound(s.cars[e], r.fromFloor, s.numFloors);
    EstimateIsSound(s.cars[e], r.fromFloor, s.numFloors);
  }

  /** For an elevator never flagged since its start, nothing in hand always means an exact estimate. */
  lemma RestingEstimateIsExact(s0: System, run0: seq<Action>, s: System, run: seq<Action>, t: System,
                               e: nat, r: Request)
    requires Initial(s0) && Undisturbed(s0, run0, s, e)
    requires PicksUpNext(s, run, t, e, r) && InHand(s.cars[e].pc) == []
    ensures |t.cars[e].log.trail|
            == |s.cars[e].log.trail| + Dispatch.Estimate(Seen(s.cars[e], e), r.fromFloor, s.numFloors)
  {
    IdleDirectionMeansArrived(s0, run0, s, e);
    TravelMeetsEstimate(s, run, t, e, r);
  }

  lemma NextIsValid(s: System, run: seq<Action>, t: System, e: nat, r: Request)
    requires PicksUpNext(s, run, t, e, r)
    ensures ValidRequest(r, s.numFloors)
  {
    CarsAround(s, run, t, e);
    assert r in t.cars[e].log.handed;
  }

  // ----- Which floors lie ahead -----

  /** On the way from `c` to its destination. */
  predicate Ahead(c: Car, f: int) {
    c.floor < f <= c.dest || c.dest <= f < c.floor
  }

  /** On the other side. */
  predicate Behind(c: Car, f: int) {
    (f < c.floor && c.floor < c.dest) || (c.dest < c.floor && c.floor < f)
  }

  /** In the movement loop the estimate charges exactly the floors behind, as seen from position and destination. */
  lemma EstimateReadsPosition(c: Car, e: nat, f: int, numFloors: int)
    requires MotionInv(c, numFloors) && InLoop(c) && c.floor != c.dest && c.status.Moving?
    ensures Dispatch.Estimate(Seen(c, e), f, numFloors)
            == Distance(c.floor, f) + if Behind(c, f) then 2 * (numFloors - 1) else 0
  {
  }

  /** At rest, doors at work, or shown as idle or in emergency, it is the plain distance. */
  lemma EstimateIsPlainUnlessMoving(c: Car, e: nat, f: int, numFloors: int)
    requires !c.status.Moving? || c.direction.Idle?
    ensures Dispatch.Estimate(Seen(c, e), f, numFloors) == if c.floor < f then f - c.floor else c.floor - f
  {
  }

  lemma PlanIsPrefix(c: Car, c': Car)
    requires OnRoute(c', c)
    ensures |Plan(c)| <= |Plan(c')| && Plan(c')[..|Plan(c)|] == Plan(c)
  {
  }

  /** The next floors entered are those of the current leg. */
  lemma TrailFollowsLeg(c: Car, c': Car, numFloors: int, i: nat)
    requires MotionInv(c, numFloors) && InLoop(c) && OnRoute(c', c)
    requires i < Distance(c.floor, c.dest) && |c.log.trail| + i < |c'.log.trail|
    ensures c'.log.trail[|c.log.trail| + i] == if c.floor < c.dest then c.floor + 1 + i else c.floor - 1 - i
  {
    var n := |c.log.trail|;
    PlanIsPrefix(c, c');
    PathIsStraight(c.floor, c.dest, i);
    assert Plan(c)[n + i] == Path(c.floor, c.dest)[i];
    assert c'.log.trail[n + i] == Plan(c')[n + i] == Plan(c)[n + i];
  }

  /** Where a floor between here and the destination shows up on the trail, and where one behind does not. */
  lemma TrailPasses(c: Car, c': Car, f: int, numFloors: int, k: nat)
    requires MotionInv(c, numFloors) && InLoop(c) && OnRoute(c', c)
    requires |c.log.trail| <= k < |c'.log.trail| && k - |c.log.trail| < Distance(c.floor, c.dest)
    ensures Ahead(c, f) ==> (c'.log.trail[k] == f <==> k == |c.log.trail| + Distance(c.floor, f) - 1)
    ensures Behind(c, f) ==> c'.log.trail[k] != f
  {
    hide OnRoute, MotionInv, InLoop;
    TrailFollowsLeg(c, c', numFloors, k - |c.log.trail|);
  }

  /** An elevator in the movement loop at `s`, undisturbed until `t`. */
  ghost predicate MovesOn(s: System, run: seq<Action>, t: System, e: nat) {
    Undisturbed(s, run, t, e) && InLoop(s.cars[e]) && s.cars[e].floor != s.cars[e].dest && s.cars[e].status.Moving?
  }

  lemma MovingCars(s: System, run: seq<Action>, t: System, e: nat, f: int)
    requires MovesOn(s, run, t, e)
    ensures MotionInv(s.cars[e], s.numFloors) && OnRoute(t.cars[e], s.cars[e])
    ensures Dispatch.Estimate(Seen(s.cars[e], e), f, s.numFloors)
            == Distance(s.cars[e].floor, f) + if Behind(s.cars[e], f) then 2 * (s.numFloors - 1) else 0
  {
    UndisturbedRoute(s, run, t, e);
    CarsAround(s, run, t, e);
    EstimateReadsPosition(s.cars[e], e, f, s.numFloors);
  }

  /** A floor ahead is entered after exactly as many floors as the estimate read at `s` says, and not before. */
  lemma FloorAheadIsReached(s: System, run: seq<Action>, t: System, e: nat, f: int)
    requires MovesOn(s, run, t, e) && Ahead(s.cars[e], f)
    ensures var trail, n := t.cars[e].log.trail, |s.cars[e].log.trail|;
            var estimate := Dispatch.Estimate(Seen(s.cars[e], e), f, s.numFloors);
            forall k :: n <= k < |trail| && k < n + estimate ==> (trail[k] == f <==> k == n + estimate - 1)
  {
    var c, c' := s.cars[e], t.cars[e];
    MovingCars(s, run, t, e, f);
    hide Undisturbed, OnRoute, MotionInv, Dispatch.Estimate;
    forall k | |c.log.trail| <= k < |c'.log.trail| && k < |c.log.trail| + Distance(c.floor, f)
      ensures c'.log.trail[k] == f <==> k == |c.log.trail| + Distance(c.floor, f) - 1
    {
      TrailPasses(c, c', f, s.numFloors, k);
    }
  }

  /** A floor behind is not entered before the destination, and the estimate allows for the way there and back. */
  lemma FloorBehindComesLater(s: System, run: seq<Action>, t: System, e: nat, f: int)
    requires MovesOn(s, run, t, e) && Behind(s.cars[e], f) && InRange(f, s.numFloors)
    ensures var c, trail, n := s.cars[e], t.cars[e].log.trail, |s.cars[e].log.trail|;
            && Distance(c.floor, c.dest) + Distance(c.dest, f) <= Dispatch.Estimate(Seen(c, e), f, s.numFloors)
            && forall k :: n <= k < |trail| && k < n + Distance(c.floor, c.dest) ==> trail[k] != f
  {
    var c, c' := s.cars[e], t.cars[e];
    MovingCars(s, run, t, e, f);
    assert InRange(c.dest, s.numFloors) && InRange(c.floor, s.numFloors);
    hide Undisturbed, OnRoute, MotionInv, Dispatch.Estimate;
    forall k | |c.log.trail| <= k < |c'.log.trail| && k < |c.log.trail| + Distance(c.floor, c.dest)
      ensures c'.log.trail[k] != f
    {
      TrailPasses(c, c', f, s.numFloors, k);
    }
  }
}

/** Where an undisturbed elevator goes: the exact floors it enters, and the time that takes. */
module Travel {
  import opened Domain
  import opened CarProtocol

  // ----- Routes -----

  /** The floors entered on a straight trip, one at a time. */
  function Path(a: int, b: int): (p: seq<int>)
    ensures |p| == Distance(a, b)
    decreases Distance(a, b)
  {
    if a == b then []
    else
      var next := if a < b then a + 1 else a - 1;
      [next] + Path(next, b)
  }

  /** It is monotone, in unit steps, from next to `a` up to `b`. */
  lemma {:induction false} PathIsStraight(a: int, b: int, i: nat)
    requires i < Distance(a, b)
    ensures Path(a, b)[i] == if a < b then a + 1 + i else a - 1 - i
    decreases i
  {
    if i > 0 {
      PathIsStraight(if a < b then a + 1 else a - 1, b, i - 1);
    }
  }

  function Delivery(floor: int, r: Request): seq<int> {
    if r.toFloor != 0 then Path(floor, r.toFloor) else []
  }

  function Trip(floor: int, r: Request): seq<int> {
    Path(floor, r.fromFloor) + Delivery(r.fromFloor, r)
  }

  function EndOf(r: Request): int {
    if r.toFloor != 0 then r.toFloor else r.fromFloor
  }

  function EndAfter(floor: int, rs: seq<Request>): int {
    if rs == [] then floor else EndOf(rs[|rs| - 1])
  }

  /** Each pickup, then each non-zero destination, in queue order. */
  function Itinerary(floor: int, rs: seq<Request>): seq<int>
    decreases |rs|
  {
    if rs == [] then [] else Trip(floor, rs[0]) + Itinerary(EndOf(rs[0]), rs[1..])
  }

  function DeliveryDoors(floor: int, r: Request): nat {
    if r.toFloor != 0 && r.toFloor != floor then 1 else 0
  }

  function TripDoors(floor: int, r: Request): nat {
    (if floor != r.fromFloor then 1 else 0) + DeliveryDoors(r.fromFloor, r)
  }

  /** Legs that actually move, each ending with one door cycle. */
  function DoorCycles(floor: int, rs: seq<Request>): nat
    decreases |rs|
  {
    if rs == [] then 0 else TripDoors(floor, rs[0]) + DoorCycles(EndOf(rs[0]), rs[1..])
  }

  lemma {:induction false} ItineraryAppends(floor: int, rs: seq<Request>, r: Request)
    ensures Itinerary(floor, rs + [r]) == Itinerary(floor, rs) + Trip(EndAfter(floor, rs), r)
    ensures DoorCycles(floor, rs + [r]) == DoorCycles(floor, rs) + TripDoors(EndAfter(floor, rs), r)
    decreases |rs|
  {
    if rs == [] {
      assert [r][1..] == [];
    } else {
      assert (rs + [r])[1..] == rs[1..] + [r];
      ItineraryAppends(EndOf(rs[0]), rs[1..], r);
      assert EndAfter(EndOf(rs[0]), rs[1..]) == EndAfter(floor, rs);
    }
  }

  /** Sum of |position - from| + |from - to| along the queue. */
  function TotalDistance(floor: int, rs: seq<Request>): nat
    decreases |rs|
  {
    if rs == [] then 0
    else
      Distance(floor, rs[0].fromFloor)
      + (if rs[0].toFloor != 0 then Distance(rs[0].fromFloor, rs[0].toFloor) else 0)
      + TotalDistance(EndOf(rs[0]), rs[1..])
  }

  lemma {:induction false} ItineraryLength(floor: int, rs: seq<Request>)
    ensures |Itinerary(floor, rs)| == TotalDistance(floor, rs)
    decreases |rs|
  {
    if rs != [] {
      ItineraryLength(EndOf(rs[0]), rs[1..]);
    }
  }

  /** The floors a route stands on, from its start. */
  function Stops(floor: int, rs: seq<Request>): seq<int> {
    [floor] + Itinerary(floor, rs)
  }

  lemma {:induction false} PathEnds(a: int, b: int)
    ensures ([a] + Path(a, b))[Distance(a, b)] == b
    decreases Distance(a, b)
  {
    if a != b {
      var next := if a < b then a + 1 else a - 1;
      PathEnds(next, b);
      assert ([a] + Path(a, b))[1..] == [next] + Path(next, b);
    }
  }

  lemma TripVisits(floor: int, r: Request)
    ensures var p := Distance(floor, r.fromFloor);
            var n := |Trip(floor, r)|;
            && p <= n
            && ([floor] + Trip(floor, r))[p] == r.fromFloor && ([floor] + Trip(floor, r))[n] == EndOf(r)
  {
    var way, rest := Path(floor, r.fromFloor), Delivery(r.fromFloor, r);
    PathEnds(floor, r.fromFloor);
    assert [floor] + Trip(floor, r) == ([floor] + way) + rest;
    if r.toFloor != 0 && r.toFloor != r.fromFloor {
      PathEnds(r.fromFloor, r.toFloor);
      assert ([r.fromFloor] + rest)[|rest|] == rest[|rest| - 1];
    }
  }

  lemma StopsSplit(floor: int, rs: seq<Request>)
    requires rs != []
    ensures Stops(floor, rs) == [floor] + Trip(floor, rs[0]) + Itinerary(EndOf(rs[0]), rs[1..])
    ensures Stops(floor, rs)[|Trip(floor, rs[0])|..] == Stops(EndOf(rs[0]), rs[1..])
  {
    hide Trip, Itinerary, EndOf;
    var trip, rest := Trip(floor, rs[0]), Itinerary(EndOf(rs[0]), rs[1..]);
    TripVisits(floor, rs[0]);
    FirstTrip(floor, rs);
    assert [floor] + (trip + rest) == ([floor] + trip) + rest;
    CutAt([floor] + trip, rest, |trip|);
  }

  lemma FirstTrip(floor: int, rs: seq<Request>)
    requires rs != []
    ensures Itinerary(floor, rs) == Trip(floor, rs[0]) + Itinerary(EndOf(rs[0]), rs[1..])
  {
  }

  lemma CutAt<T>(a: seq<T>, rest: seq<T>, n: nat)
    requires |a| == n + 1
    ensures (a + rest)[n..] == [a[n]] + rest
  {
  }

  /** A route stands on the floor of each pickup, and from then on on each non-zero destination. */
  ghost predicate Visits(stops: seq<int>, r: Request) {
    exists p, q :: 0 <= p <= q < |stops| && stops[p] == r.fromFloor && (r.toFloor != 0 ==> stops[q] == r.toFloor)
  }

  lemma {:induction false} ItineraryVisits(floor: int, rs: seq<Request>, i: nat)
    requires i < |rs|
    ensures Visits(Stops(floor, rs), rs[i])
    decreases |rs|
  {
    hide Itinerary, Trip, Stops, Path;
    var stops, n := Stops(floor, rs), |Trip(floor, rs[0])|;
    StopsSplit(floor, rs);
    if i == 0 {
      TripVisits(floor, rs[0]);
      var p := Distance(floor, rs[0].fromFloor);
      assert stops[p] == rs[0].fromFloor && stops[n] == EndOf(rs[0]);
    } else {
      var later := Stops(EndOf(rs[0]), rs[1..]);
      ItineraryVisits(EndOf(rs[0]), rs[1..], i - 1);
      var p, q :| 0 <= p <= q < |later| && later[p] == rs[i].fromFloor
                  && (rs[i].toFloor != 0 ==> later[q] == rs[i].toFloor);
      assert stops[n + p] == later[p] && stops[n + q] == later[q];
    }
  }

  lemma OneMore(k: nat, n: nat)
    requires n > 0
    ensures k * n == k * (n - 1) + k
  {
  }

  lemma {:induction false} DistanceBound(floor: int, rs: seq<Request>, numFloors: int)
    requires InRange(floor, numFloors) && forall r :: r in rs ==> ValidRequest(r, numFloors)
    ensures TotalDistance(floor, rs) <= 2 * (numFloors - 1) * |rs|
    decreases |rs|
  {
    if rs != [] {
      assert rs[0] in rs;
      DistanceBound(EndOf(rs[0]), rs[1..], numFloors);
      OneMore(2 * (numFloors - 1), |rs|);
    }
  }

  // ----- Exact travel, while running and unflagged -----

  predicate Free(c: Car) {
    c.running && !c.flag
  }

  /** Floors still to be entered for the request in hand. */
  function Remaining(c: Car): seq<int> {
    match c.pc
    case Pickup(r) => Trip(c.floor, r)
    case Deliver(r, _) => Delivery(c.floor, r)
    case OnLeg(_, l) => Path(c.floor, l.target) + if l.delivering then [] else Delivery(l.target, l.hand)
    case _ => []
  }

  function RemainingDoors(c: Car): nat {
    match c.pc
    case Pickup(r) => TripDoors(c.floor, r)
    case Deliver(r, _) => DeliveryDoors(c.floor, r)
    case OnLeg(at, l) =>
      (if at.LoopTest? && c.floor == l.target then 0 else 1)
      + if l.delivering then 0 else DeliveryDoors(l.target, l.hand)
    case _ => 0
  }

  /** Where the elevator will be once the request in hand is done. */
  function EndOfHand(c: Car): int {
    match c.pc
    case Pickup(r) => EndOf(r)
    case Deliver(r, _) => if r.toFloor != 0 then r.toFloor else c.floor
    case OnLeg(_, l) => if l.delivering then l.target else EndOf(l.hand)
    case _ => c.floor
  }

  /** Floors entered so far, then those still ahead. */
  function Plan(c: Car): seq<int> {
    c.log.trail + Remaining(c)
  }

  function PlannedDoors(c: Car): nat {
    c.log.doors + RemainingDoors(c)
  }

  /** Since `c0` the plan has grown by exactly the itinerary of the requests taken on since. */
  ghost predicate OnRoute(c: Car, c0: Car) {
    && |Taken(c0)| <= |Taken(c)|
    && var taken := Taken(c)[|Taken(c0)|..];
       && Plan(c) == Plan(c0) + Itinerary(EndOfHand(c0), taken)
       && PlannedDoors(c) == PlannedDoors(c0) + DoorCycles(EndOfHand(c0), taken)
       && EndOfHand(c) == EndAfter(EndOfHand(c0), taken)
  }

  lemma StartsOnRoute(c: Car)
    ensures OnRoute(c, c)
  {
  }

  ghost predicate SamePlan(c: Car, c': Car) {
    Taken(c') == Taken(c) && Plan(c') == Plan(c) && PlannedDoors(c') == PlannedDoors(c) && EndOfHand(c') == EndOfHand(c)
  }

  ghost predicate Extends(c: Car, c': Car, r: Request) {
    && Taken(c') == Taken(c) + [r]
    && Plan(c') == Plan(c) + Trip(EndOfHand(c), r)
    && PlannedDoors(c') == PlannedDoors(c) + TripDoors(EndOfHand(c), r)
    && EndOfHand(c') == EndOf(r)
  }

  lemma Reassociate<T>(a: seq<T>, x: T, p: seq<T>, rest: seq<T>)
    ensures a + ([x] + p + rest) == a + [x] + (p + rest)
  {
  }

  lemma PathSteps(a: int, b: int)
    requires a != b
    ensures var next := if a < b then a + 1 else a - 1; Path(a, b) == [next] + Path(next, b)
  {
  }

  /** One floor nearer: the floor entered was the next one planned. */
  lemma FloorStepAdvances(c: Car, l: Leg, numFloors: int)
    requires c.pc == OnLeg(FloorStep, l) && MotionInv(c, numFloors)
    ensures Plan(LegStep(c, FloorStep, l)) == Plan(c)
    ensures RemainingDoors(LegStep(c, FloorStep, l)) == RemainingDoors(c)
  {
    hide Path, Delivery;
    var c' := LegStep(c, FloorStep, l);
    PathSteps(c.floor, l.target);
    assert c'.floor == if c.floor < l.target then c.floor + 1 else c.floor - 1;
    Reassociate(c.log.trail, c'.floor, Path(c'.floor, l.target),
                if l.delivering then [] else Delivery(l.target, l.hand));
  }

  lemma FinishKeepsPlan(c: Car, r: Request, completed: bool)
    requires InHand(c.pc) == [r] && Remaining(c) == [] && RemainingDoors(c) == 0 && EndOfHand(c) == c.floor
    ensures SamePlan(c, Finish(c, r, completed))
  {
    RequestsExtends(c.log.served, Outcome(r, completed));
  }

  lemma LegKeepsPlan(c: Car, at: LegPoint, l: Leg, numFloors: int)
    requires c.pc == OnLeg(at, l) && MotionInv(c, numFloors) && Free(c)
    ensures SamePlan(c, LegStep(c, at, l))
  {
    if at.FloorStep? {
      FloorStepAdvances(c, l, numFloors);
      assert LegStep(c, at, l).log.served == c.log.served && LegStep(c, at, l).log.doors == c.log.doors;
    } else if at.LoopTest? && c.floor == l.target && l.delivering {
      FinishKeepsPlan(c, l.hand, !l.missed);
    } else {
      LegGoesOn(c, at, l, numFloors);
    }
  }

  lemma LegGoesOn(c: Car, at: LegPoint, l: Leg, numFloors: int)
    requires c.pc == OnLeg(at, l) && MotionInv(c, numFloors) && Free(c) && !at.FloorStep?
    requires !(at.LoopTest? && c.floor == l.target && l.delivering)
    ensures SamePlan(c, LegStep(c, at, l))
  {
  }

  lemma DeliverKeepsPlan(c: Car)
    requires c.pc.Deliver?
    ensures SamePlan(c, WorkerStep(c))
  {
    var r := c.pc.hand;
    if r.toFloor == 0 || r.toFloor == c.floor {
      FinishKeepsPlan(c, r, !c.pc.missed);
    } else {
      assert Remaining(WorkerStep(c)) == Path(c.floor, r.toFloor) + [];
    }
  }

  lemma PickupKeepsPlan(c: Car)
    requires c.pc.Pickup?
    ensures SamePlan(c, WorkerStep(c))
  {
    hide Delivery, DeliveryDoors;
    var r := c.pc.hand;
    if r.fromFloor == c.floor {
      assert Remaining(c) == [] + Delivery(c.floor, r);
    }
  }

  /** Popping a request adds its trip to the plan. */
  lemma PopExtendsPlan(c: Car)
    requires c.pc.Pop? && c.queue != []
    ensures Extends(c, WorkerStep(c), c.queue[0])
  {
  }

  lemma PopKeepsRoute(c: Car, c0: Car)
    requires c.pc.Pop? && c.queue != [] && OnRoute(c, c0)
    ensures OnRoute(WorkerStep(c), c0)
  {
    PopExtendsPlan(c);
    RouteExtends(c, WorkerStep(c), c0, c.queue[0]);
  }

  lemma RouteExtends(c: Car, c': Car, c0: Car, r: Request)
    requires OnRoute(c, c0) && Extends(c, c', r)
    ensures OnRoute(c', c0)
  {
    hide Taken, Plan, PlannedDoors, EndOfHand, Itinerary, DoorCycles, Trip, TripDoors;
    var start, taken := EndOfHand(c0), Taken(c)[|Taken(c0)|..];
    SuffixExtends(Taken(c), r, |Taken(c0)|);
    ItineraryAppends(start, taken, r);
    assert EndAfter(start, taken + [r]) == EndOf(r);
    Associate(Plan(c0), Itinerary(start, taken), Trip(EndOfHand(c), r));
  }

  lemma SuffixExtends<T>(a: seq<T>, x: T, n: nat)
    requires n <= |a|
    ensures (a + [x])[n..] == a[n..] + [x]
  {
  }

  lemma Associate<T>(a: seq<T>, b: seq<T>, c: seq<T>)
    ensures (a + b) + c == a + (b + c)
  {
  }

  /** No other step changes the plan. */
  lemma CarNextKeepsPlan(c: Car, a: CarAction, numFloors: int)
    requires CarInv(c, numFloors) && Free(c) && !(a.Work? && c.pc.Pop? && c.queue != [])
    ensures SamePlan(c, CarNext(c, a))
  {
    if a.Work? {
      match c.pc
      case OnLeg(at, l) => LegKeepsPlan(c, at, l, numFloors);
      case Pickup(_) => PickupKeepsPlan(c);
      case Deliver(_, _) => DeliverKeepsPlan(c);
      case _ =>
    }
  }

  lemma CarNextKeepsRoute(c: Car, a: CarAction, c0: Car, numFloors: int)
    requires CarInv(c, numFloors) && Free(c) && OnRoute(c, c0)
    ensures OnRoute(CarNext(c, a), c0)
  {
    if a.Work? && c.pc.Pop? && c.queue != [] {
      PopKeepsRoute(c, c0);
    } else {
      CarNextKeepsPlan(c, a, numFloors);
    }
  }

  /** All requests from the `n`-th on have completed, or still can. */
  ghost predicate Unspoiled(c: Car, n: nat) {
    && (forall i :: n <= i < |c.log.served| ==> c.log.served[i].completed)
    && (MissedInHand(c) ==> |c.log.served| < n)
  }

  lemma LegKeepsUnspoiled(c: Car, at: LegPoint, l: Leg, numFloors: int, n: nat)
    requires c.pc == OnLeg(at, l) && MotionInv(c, numFloors) && Free(c) && Unspoiled(c, n)
    ensures Unspoiled(LegStep(c, at, l), n)
  {
  }

  lemma CarNextKeepsUnspoiled(c: Car, a: CarAction, numFloors: int, n: nat)
    requires CarInv(c, numFloors) && Free(c) && Unspoiled(c, n)
    ensures Unspoiled(CarNext(c, a), n)
  {
    if a.Work? {
      match c.pc
      case OnLeg(at, l) => LegKeepsUnspoiled(c, at, l, numFloors, n);
      case Pickup(_) =>
      case Deliver(_, _) =>
      case _ =>
    }
  }

  // ----- Running and never flagged since the start -----

  predicate Calm(c: Car) {
    Free(c) && c.log.windows == 0
  }

  /** The status a worker has last stored itself. */
  function OwnStatus(c: Car): Status {
    match c.pc
    case OnLeg(at, l) =>
      if at.SetDirection? || at.SetStatus? || (at.LoopTest? && c.floor == l.target) then Status.Idle
      else if at.DoorsDirection? || at.DoorsIdle? then Stopped
      else Moving
    case _ => Status.Idle
  }

  /** Direction IDLE only at the destination, MOVING only on a leg, and no waking up without a request. */
  ghost predicate CalmInv(c: Car) {
    && (c.direction.Idle? ==> c.floor == c.dest)
    && (c.status.Moving? ==> OwnStatus(c).Moving?)
    && match c.pc
       case Polling(at) => c.direction.Idle? && (at.TestRunning? || at.TestFlag? ==> c.queue != [])
       case Pop => c.direction.Idle? && c.queue != []
       case Pickup(_) => c.direction.Idle?
       case Deliver(_, _) => c.direction.Idle?
       case OnLeg(at, l) =>
         && (at.SetDirection? ==> c.direction.Idle?)
         && (at.DoorsIdle? || (at.LoopTest? && c.floor == l.target) ==> c.direction.Idle?)
       case _ => false
  }

  lemma LegKeepsCalm(c: Car, at: LegPoint, l: Leg, numFloors: int)
    requires c.pc == OnLeg(at, l) && MotionInv(c, numFloors) && Calm(c) && CalmInv(c)
    ensures CalmInv(LegStep(c, at, l))
  {
  }

  lemma CarNextKeepsCalm(c: Car, a: CarAction, numFloors: int)
    requires CarInv(c, numFloors) && CarEnabled(c, a, numFloors) && Calm(c) && CalmInv(c)
    ensures CalmInv(CarNext(c, a))
  {
    if a.Work? {
      match c.pc
      case OnLeg(at, l) => LegKeepsCalm(c, at, l, numFloors);
      case Polling(_) =>
      case Pickup(_) =>
      case Deliver(_, _) =>
      case _ =>
    }
  }

  lemma LegKeepsOwnStatus(c: Car, at: LegPoint, l: Leg, numFloors: int)
    requires c.pc == OnLeg(at, l) && MotionInv(c, numFloors) && Free(c) && c.status == OwnStatus(c)
    ensures LegStep(c, at, l).status == OwnStatus(LegStep(c, at, l))
  {
  }

  /** While no emergency call stores a status, the worker's own is shown. */
  lemma CarNextKeepsOwnStatus(c: Car, a: CarAction, numFloors: int)
    requires CarInv(c, numFloors) && Calm(c) && CalmInv(c) && c.status == OwnStatus(c) && !a.StoreStatus?
    ensures CarNext(c, a).status == OwnStatus(CarNext(c, a))
  {
    if a.Work? {
      match c.pc
      case OnLeg(at, l) => LegKeepsOwnStatus(c, at, l, numFloors);
      case Pickup(_) =>
      case Deliver(_, _) =>
      case _ =>
    }
  }
}

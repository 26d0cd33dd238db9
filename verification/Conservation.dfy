/** No request is lost from sight or duplicated, whatever the interleaving. */
module Conservation {
  import opened Domain
  import Dispatch
  import opened CarProtocol
  import opened SystemProtocol

  /** Everything offered to an elevator: accepted by it or refused by it. */
  ghost function Offered(c: Car): multiset<Request> {
    multiset(c.log.handed) + multiset(c.log.rejected)
  }

  ghost function OfferedAll(cars: seq<Car>): multiset<Request> {
    if cars == [] then multiset{} else Offered(cars[0]) + OfferedAll(cars[1..])
  }

  lemma {:induction false} OfferedGrows(cars: seq<Car>, e: nat, c: Car, extra: multiset<Request>)
    requires e < |cars| && Offered(c) == Offered(cars[e]) + extra
    ensures OfferedAll(cars[e := c]) == OfferedAll(cars) + extra
  {
    if e == 0 {
      assert cars[e := c][1..] == cars[1..];
    } else {
      assert cars[e := c][1..] == cars[1..][e - 1 := c];
      OfferedGrows(cars[1..], e - 1, c, extra);
    }
  }

  /** The requests handed to elevator `e`, in the order of hand-over. */
  function HandedTo(dispatched: seq<Handover>, e: nat): seq<Request> {
    if dispatched == [] then []
    else
      var n := |dispatched| - 1;
      HandedTo(dispatched[..n], e) + if dispatched[n].e == e then [dispatched[n].request] else []
  }

  ghost predicate ValidAll(rs: seq<Request>, numFloors: int) {
    forall r :: r in rs ==> ValidRequest(r, numFloors)
  }

  ghost predicate CarsOk(s: System) {
    forall e :: 0 <= e < |s.cars| ==> CarInv(s.cars[e], s.numFloors)
  }

  ghost predicate QueueOk(s: System) {
    PcInRange(s) && ValidAll(s.pending, s.numFloors) && ValidAll(DispatcherHand(s.pc), s.numFloors)
  }

  /** There is an elevator to look at, and a scan starts from the sentinel. */
  ghost predicate ScanStarts(s: System) {
    |s.cars| > 0 && (s.pc.Scan? && s.pc.k == 0 ==> s.pc.cursor == Dispatch.START)
  }

  /** Valid requests everywhere, every elevator in a consistent state. */
  ghost predicate Wf(s: System) {
    Dispatch.Fits(s.numFloors) && QueueOk(s) && CarsOk(s) && ScanStarts(s)
  }

  ghost predicate Balanced(s: System) {
    multiset(s.accepted) == Undecided(s) + OfferedAll(s.cars)
  }

  ghost predicate Split(s: System) {
    forall e :: 0 <= e < |s.cars| ==> s.cars[e].log.handed == HandedTo(s.dispatched, e)
  }

  lemma ChangeCarKeepsCars(s: System, e: nat, a: CarAction)
    requires CarsOk(s) && e < |s.cars| && CarEnabled(s.cars[e], a, s.numFloors)
    ensures CarsOk(ChangeCar(s, e, a))
  {
    CarNextKeepsInv(s.cars[e], a, s.numFloors);
  }

  lemma DispatcherKeepsCars(s: System)
    requires Wf(s) && Enabled(s, Dispatch)
    ensures CarsOk(DispatcherStep(s))
  {
    if s.pc.Offer? && Flagged(s, s.pc.e) {
      ChangeCarKeepsCars(s, s.pc.e, Refuse(s.pc.hand));
    } else if s.pc.Push? {
      ChangeCarKeepsCars(s, s.pc.e, Accept(s.pc.hand));
    } else if s.pc.Notify? {
      ChangeCarKeepsCars(s, s.pc.e, Rouse);
    } else {
      assert DispatcherStep(s).cars == s.cars;
    }
  }

  lemma DispatcherKeepsQueue(s: System)
    requires QueueOk(s)
    ensures QueueOk(DispatcherStep(s))
  {
    match s.pc
    case Take =>
    case Scan(_, _, _) =>
    case Requeue(_) =>
    case _ =>
  }

  lemma DispatcherKeepsStart(s: System)
    requires ScanStarts(s)
    ensures ScanStarts(DispatcherStep(s))
  {
    match s.pc
    case Waiting(_) =>
    case _ =>
  }

  lemma NextKeepsWf(s: System, a: Action)
    requires Wf(s) && Enabled(s, a)
    ensures Wf(Next(s, a))
  {
    match a
    case Dispatch =>
      DispatcherKeepsCars(s);
      DispatcherKeepsQueue(s);
      DispatcherKeepsStart(s);
    case OnCar(e, act) => ChangeCarKeepsCars(s, e, act);
    case _ =>
  }

  /** What one action adds to the history of an elevator. */
  lemma CarNextOffers(c: Car, a: CarAction)
    ensures CarNext(c, a).log.handed == c.log.handed + if a.Accept? then [a.request] else []
    ensures CarNext(c, a).log.rejected == c.log.rejected + if a.Refuse? then [a.request] else []
  {
    if a.Work? {
      match c.pc
      case OnLeg(_, _) =>
      case _ =>
    }
  }

  lemma ChangeCarOffers(s: System, e: nat, a: CarAction)
    requires e < |s.cars|
    ensures OfferedAll(ChangeCar(s, e, a).cars)
            == OfferedAll(s.cars) + if a.Accept? || a.Refuse? then multiset{a.request} else multiset{}
  {
    CarNextOffers(s.cars[e], a);
    OfferedGrows(s.cars, e, CarNext(s.cars[e], a), if a.Accept? || a.Refuse? then multiset{a.request} else multiset{});
  }

  lemma MultisetOfTail<T>(q: seq<T>)
    requires q != []
    ensures multiset(q) == multiset([q[0]]) + multiset(q[1..])
  {
    assert q == [q[0]] + q[1..];
  }

  /** What a dispatcher step offers to an elevator. */
  function DispatcherOffers(s: System): multiset<Request> {
    if s.pc.Push? || (s.pc.Offer? && Flagged(s, s.pc.e))
    then multiset{s.pc.hand} else multiset{}
  }

  lemma DispatcherOffersOne(s: System)
    requires PcInRange(s)
    ensures OfferedAll(DispatcherStep(s).cars) == OfferedAll(s.cars) + DispatcherOffers(s)
  {
    var s' := DispatcherStep(s);
    if s.pc.Offer? && Flagged(s, s.pc.e) {
      ChangeCarOffers(s, s.pc.e, Refuse(s.pc.hand));
      assert s'.cars == ChangeCar(s, s.pc.e, Refuse(s.pc.hand)).cars;
    } else if s.pc.Push? {
      ChangeCarOffers(s, s.pc.e, Accept(s.pc.hand));
      assert s'.cars == ChangeCar(s, s.pc.e, Accept(s.pc.hand)).cars;
    } else if s.pc.Notify? {
      ChangeCarOffers(s, s.pc.e, Rouse);
      assert s'.cars == ChangeCar(s, s.pc.e, Rouse).cars;
    } else {
      assert s'.cars == s.cars;
    }
  }

  /** Requests the dispatcher is responsible for. */
  ghost function Undecided(s: System): multiset<Request> {
    multiset(s.pending) + multiset(DispatcherHand(s.pc))
  }

  lemma TakeMoves(s: System)
    requires s.pc.Take?
    ensures Undecided(DispatcherStep(s)) == Undecided(s)
  {
    if s.pending != [] {
      assert DispatcherHand(DispatcherStep(s).pc) == [s.pending[0]];
      MultisetOfTail(s.pending);
    }
  }

  lemma RequeueMoves(s: System)
    requires s.pc.Requeue?
    ensures Undecided(DispatcherStep(s)) == Undecided(s)
  {
  }

  lemma OffersMove(s: System)
    requires s.pc.Push? || (s.pc.Offer? && Flagged(s, s.pc.e))
    ensures Undecided(s) == Undecided(DispatcherStep(s)) + DispatcherOffers(s)
  {
  }

  lemma OthersStay(s: System)
    requires !s.pc.Take? && !s.pc.Requeue? && !s.pc.Push? && !(s.pc.Offer? && Flagged(s, s.pc.e))
    ensures DispatcherStep(s).pending == s.pending
    ensures DispatcherHand(DispatcherStep(s).pc) == DispatcherHand(s.pc)
  {
  }

  lemma AddNothing<T>(m: multiset<T>)
    ensures m == m + multiset{}
  {
  }

  /** A dispatcher step moves requests between the queue, its hand and the elevators. */
  lemma DispatcherMoves(s: System)
    ensures Undecided(s) == Undecided(DispatcherStep(s)) + DispatcherOffers(s)
  {
    AddNothing(Undecided(s));
    if s.pc.Take? {
      TakeMoves(s);
    } else if s.pc.Requeue? {
      RequeueMoves(s);
    } else if s.pc.Push? || (s.pc.Offer? && Flagged(s, s.pc.e)) {
      OffersMove(s);
    } else {
      OthersStay(s);
    }
  }

  lemma Regroup<T>(all: multiset<T>, u: multiset<T>, o: multiset<T>,
                   u': multiset<T>, o': multiset<T>, moved: multiset<T>)
    requires all == u + o && u == u' + moved && o' == o + moved
    ensures all == u' + o'
  {
  }

  lemma DispatcherKeepsBalance(s: System)
    requires Balanced(s) && PcInRange(s)
    ensures Balanced(DispatcherStep(s))
  {
    var s' := DispatcherStep(s);
    assert s'.accepted == s.accepted;
    DispatcherMoves(s);
    DispatcherOffersOne(s);
    Regroup(multiset(s.accepted), Undecided(s), OfferedAll(s.cars),
            Undecided(s'), OfferedAll(s'.cars), DispatcherOffers(s));
  }

  lemma SubmitKeepsBalance(s: System, r: Request)
    requires Balanced(s)
    ensures Balanced(Next(s, Submit(r)))
  {
  }

  lemma NextKeepsBalance(s: System, a: Action)
    requires Balanced(s) && PcInRange(s) && Enabled(s, a)
    ensures Balanced(Next(s, a))
  {
    match a
    case Dispatch => DispatcherKeepsBalance(s);
    case Submit(r) => SubmitKeepsBalance(s, r);
    case OnCar(e, act) =>
      ChangeCarOffers(s, e, act);
      AddNothing(OfferedAll(s.cars));
    case _ => assert Undecided(Next(s, a)) == Undecided(s);
  }

  lemma ChangeCarKeepsSplit(s: System, e: nat, a: CarAction)
    requires e < |s.cars| && !a.Accept? && Split(s)
    ensures Split(ChangeCar(s, e, a))
  {
  }

  lemma PushKeepsSplit(s: System, r: Request, e: nat)
    requires e < |s.cars| && Split(s)
    ensures Split(ChangeCar(s, e, Accept(r)).(dispatched := s.dispatched + [Handover(e, r)]))
  {
  }

  lemma NextKeepsSplit(s: System, a: Action)
    requires Split(s) && PcInRange(s) && Enabled(s, a)
    ensures Split(Next(s, a))
  {
    match a
    case Dispatch =>
      match s.pc {
        case Offer(r, e) => ChangeCarKeepsSplit(s, e, Refuse(r));
        case Push(r, e) => PushKeepsSplit(s, r, e);
        case Notify(e) => ChangeCarKeepsSplit(s, e, Rouse);
        case _ =>
      }
    case OnCar(e, act) => ChangeCarKeepsSplit(s, e, act);
    case _ =>
  }
}

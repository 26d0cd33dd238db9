/**
 The whole simulator as one transition system: producers calling `addRequest`,
 the dispatcher thread, one worker thread per elevator, and emergency and
 shutdown calls from any thread, interleaved one shared access at a time.
 */
module SystemProtocol {
  import opened Domain
  import Dispatch
  import opened CarProtocol

  /** Points of the dispatcher's wait for work. */
  datatype WaitPoint =
    | LoopHead                              // while (running)
    | CheckRunning | CheckPending           // the wait predicate, read left to right under the mutex
    | Dormant                               // inside wait, mutex released
    | Recheck                               // woken, mutex held

  /** Where the dispatcher thread stands in `dispatcherLoop`. */
  datatype DispatcherPc =
    | Waiting(at: WaitPoint)
    | Take                                  // mutex still held
    | Scan(hand: Request, k: nat, cursor: Dispatch.Cursor)   // findBestElevator, about to look at elevator k
    | Offer(hand: Request, e: nat)          // Elevator::addRequest, testing the flag
    | Push(hand: Request, e: nat)           // past the test, about to push
    | Notify(e: nat)                        // pushed, not yet notified
    | Requeue(hand: Request)
    | Left                                  // out of the loop

  datatype Handover = Handover(e: nat, request: Request)

  datatype System = System(
    numFloors: nat, running: bool, pending: seq<Request>, cars: seq<Car>, pc: DispatcherPc,
    owing: nat,                 // producers that have pushed and not yet notified
    haltNotified: bool,         // stop has done its notification
    accepted: seq<Request>,     // history: everything addRequest queued
    dispatched: seq<Handover>,  // history: successful hand-overs
    requeued: nat)              // history: how often the dispatcher put a request back

  datatype Action =
    | Submit(request: Request)           // ElevatorController::addRequest, up to its push
    | NotifyDispatcher                   // and its notification
    | RouseDispatcher                    // a spurious wake-up
    | Dispatch                           // the dispatcher's next step
    | OnCar(e: nat, act: CarAction)      // a worker step, or an emergency or stop store
    | HaltController                     // ElevatorController::stop, running = false
    | NotifyHalt                         // its notification under the mutex

  predicate HoldsLock(pc: DispatcherPc) {
    pc == Waiting(CheckPending) || pc == Waiting(Recheck) || pc.Take?
  }

  function DispatcherHand(pc: DispatcherPc): seq<Request> {
    match pc
    case Scan(r, _, _) => [r]
    case Offer(r, _) => [r]
    case Push(r, _) => [r]
    case Requeue(r) => [r]
    case _ => []
  }

  /** What the scan reads of elevator `k`. */
  function Seen(c: Car, k: nat): Dispatch.View {
    Dispatch.View(k, c.floor, c.direction, c.status, c.flag)
  }

  predicate PcInRange(s: System) {
    match s.pc
    case Scan(_, k, c) => k <= |s.cars| && (c.best.Some? ==> c.best.value < |s.cars|)
    case Offer(_, e) => e < |s.cars|
    case Push(_, e) => e < |s.cars|
    case Notify(e) => e < |s.cars|
    case _ => true
  }

  function Wake(s: System): System {
    if s.pc == Waiting(Dormant) then s.(pc := Waiting(CheckRunning)) else s
  }

  function ChangeCar(s: System, e: nat, a: CarAction): System {
    if e < |s.cars| then s.(cars := s.cars[e := CarNext(s.cars[e], a)]) else s
  }

  predicate Flagged(s: System, e: nat) {
    e < |s.cars| && s.cars[e].flag
  }

  function WaitStep(at: WaitPoint, running: bool, empty: bool): DispatcherPc {
    match at
    case LoopHead => if running then Waiting(CheckRunning) else Left
    case CheckRunning => if running then Waiting(CheckPending) else Waiting(Recheck)
    case CheckPending => if empty then Waiting(Dormant) else Waiting(Recheck)
    case Dormant => Waiting(Dormant)
    case Recheck => if running then Take else Left
  }

  function DispatcherStep(s: System): System {
    match s.pc
    case Waiting(at) => s.(pc := WaitStep(at, s.running, s.pending == []))
    case Take =>
      if s.pending == [] then s.(pc := Waiting(LoopHead))
      else s.(pending := s.pending[1..], pc := Scan(s.pending[0], 0, Dispatch.START))
    case Scan(r, k, c) =>
      if k < |s.cars| then
        s.(pc := Scan(r, k + 1, Dispatch.Look(c, Seen(s.cars[k], k), k, r.fromFloor, s.numFloors)))
      else
        s.(pc := if c.best.Some? then Offer(r, c.best.value) else Requeue(r))
    case Offer(r, e) =>
      if Flagged(s, e) then ChangeCar(s, e, Refuse(r)).(pc := Waiting(LoopHead)) else s.(pc := Push(r, e))
    case Push(r, e) =>
      ChangeCar(s, e, Accept(r)).(pc := Notify(e), dispatched := s.dispatched + [Handover(e, r)])
    case Notify(e) => ChangeCar(s, e, Rouse).(pc := Waiting(LoopHead))
    case Requeue(r) => s.(pending := s.pending + [r], requeued := s.requeued + 1, pc := Waiting(LoopHead))
    case Left => s
  }

  predicate Enabled(s: System, a: Action) {
    match a
    case Submit(r) => ValidRequest(r, s.numFloors) && !HoldsLock(s.pc)
    case NotifyDispatcher => s.owing > 0
    case RouseDispatcher => true
    case Dispatch =>
      && s.pc != Waiting(Dormant) && !s.pc.Left?
      && (s.pc.Push? && s.pc.e < |s.cars| ==> !HoldsMutex(s.cars[s.pc.e].pc))
    case OnCar(e, act) =>
      e < |s.cars| && !act.Accept? && !act.Refuse? && CarEnabled(s.cars[e], act, s.numFloors)
    case HaltController => true
    case NotifyHalt => !s.running && !HoldsLock(s.pc)
  }

  /** With its mutex free the controller queues exactly hall calls and trips on the floors of the building. */
  lemma SubmitAcceptsExactly(s: System, fromFloor: int, toFloor: int, d: Direction)
    requires !HoldsLock(s.pc)
    ensures Enabled(s, Submit(Request(fromFloor, toFloor, d)))
            <==> 1 <= fromFloor <= s.numFloors && (toFloor == 0 || 1 <= toFloor <= s.numFloors)
  {
  }

  function Next(s: System, a: Action): System {
    match a
    case Submit(r) => s.(pending := s.pending + [r], accepted := s.accepted + [r], owing := s.owing + 1)
    case NotifyDispatcher => Wake(s.(owing := if s.owing > 0 then s.owing - 1 else 0))
    case RouseDispatcher => Wake(s)
    case Dispatch => DispatcherStep(s)
    case OnCar(e, act) => ChangeCar(s, e, act)
    case HaltController => s.(running := false)
    case NotifyHalt => Wake(s.(haltNotified := true))
  }

  /** What a system step does to one elevator: nothing, or one of its actions. */
  function ActionOn(s: System, a: Action, e: nat): Option<CarAction> {
    match a
    case OnCar(k, act) => if k == e then Some(act) else None
    case Dispatch =>
      (match s.pc
       case Offer(r, k) => if k == e && Flagged(s, k) then Some(Refuse(r)) else None
       case Push(r, k) => if k == e then Some(Accept(r)) else None
       case Notify(k) => if k == e then Some(Rouse) else None
       case _ => None)
    case _ => None
  }

  lemma NextOnCar(s: System, a: Action, e: nat)
    requires e < |s.cars|
    ensures |Next(s, a).cars| == |s.cars|
    ensures match ActionOn(s, a, e)
            case None => Next(s, a).cars[e] == s.cars[e]
            case Some(act) => Next(s, a).cars[e] == CarNext(s.cars[e], act)
  {
    if a.Dispatch? {
      match s.pc
      case Offer(_, _) =>
      case Push(_, _) =>
      case Notify(_) =>
      case Waiting(_) =>
      case _ =>
    }
  }

  // ----- Runs -----

  predicate Feasible(s: System, run: seq<Action>)
    decreases |run|
  {
    run == [] || (Enabled(s, run[0]) && Feasible(Next(s, run[0]), run[1..]))
  }

  function Run(s: System, run: seq<Action>): System
    decreases |run|
  {
    if run == [] then s else Run(Next(s, run[0]), run[1..])
  }

  /** Just started: all elevators fresh, nothing requested, scores within `int`. */
  predicate Initial(s: System) {
    && Dispatch.Fits(s.numFloors)
    && |s.cars| > 0
    && (forall e :: 0 <= e < |s.cars| ==> InRange(s.cars[e].floor, s.numFloors) && s.cars[e] == Fresh(s.cars[e].floor))
    && s == System(s.numFloors, true, [], s.cars, Waiting(LoopHead), 0, false, [], [], 0)
  }
}

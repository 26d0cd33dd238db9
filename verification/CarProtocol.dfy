/**
 One elevator as a small-step machine: its worker thread (`processRequests`,
 `moveToFloor`) one shared access at a time, and everything other threads may
 do to it in between.
 */
module CarProtocol {
  import opened Domain

  /** A movement in progress; `missed` records that the pickup leg was cut short. */
  datatype Leg = Leg(hand: Request, target: int, delivering: bool, missed: bool)

  /** Points inside `moveToFloor`, past its first test. */
  datatype LegPoint =
    | SetDirection | SetStatus | SetDestination
    | LoopTest | LoopRunning | FloorStep
    | DoorsStopped | DoorsDirection | DoorsIdle

  /** Points of the worker's wait for a request. */
  datatype PollPoint =
    | Head                                    // while (running)
    | WaitRunning | WaitFlag | WaitQueue      // the wait predicate, read left to right under the mutex
    | Asleep                                  // inside wait, mutex released
    | TestRunning | TestFlag                  // woken, mutex held

  /** Where the worker thread stands in src/Elevator.cpp. */
  datatype WorkerPc =
    | Polling(poll: PollPoint)
    | Pop                                     // mutex still held
    | IdleDirection | IdleStatus              // woken without a request
    | Pickup(hand: Request)
    | Deliver(hand: Request, missed: bool)
    | OnLeg(at: LegPoint, leg: Leg)           // inside moveToFloor
    | Exit

  /** How a popped request ended. */
  datatype Outcome = Outcome(request: Request, completed: bool)

  /** History of one elevator, kept for the proofs only. */
  datatype Log = Log(
    handed: seq<Request>,    // accepted by Elevator::addRequest
    rejected: seq<Request>,  // refused by Elevator::addRequest
    served: seq<Outcome>,    // taken off the queue and finished with
    trail: seq<int>,         // floors entered, in order
    doors: nat,              // door cycles
    windows: nat)            // times the emergency flag went from clear to set

  datatype Car = Car(
    floor: int, dest: int, direction: Direction, status: Status,
    flag: bool, running: bool, queue: seq<Request>, pc: WorkerPc, log: Log)

  /** Everything that can happen to an elevator in one indivisible step. */
  datatype CarAction =
    | Work                          // the worker thread's next shared access
    | RaiseFlag | LowerFlag         // first store of emergencyStopActivate / emergencyStopRelease
    | StoreStatus(status: Status)   // second store of either
    | Halt                          // first store of stop
    | Rouse                         // a notification, or a spurious wake-up
    | Accept(request: Request)      // the locked push in addRequest
    | Refuse(request: Request)      // addRequest finding the flag set

  const NO_LOG := Log([], [], [], [], 0, 0)

  function Fresh(start: int): Car {
    Car(start, start, Direction.Idle, Status.Idle, false, true, [], Polling(Head), NO_LOG)
  }

  predicate HoldsMutex(pc: WorkerPc) {
    pc.Pop? || (pc.Polling? && !pc.poll.Head? && !pc.poll.WaitRunning? && !pc.poll.Asleep?)
  }

  /** The request the worker has popped and not finished with. */
  function InHand(pc: WorkerPc): seq<Request> {
    match pc
    case Pickup(r) => [r]
    case Deliver(r, _) => [r]
    case OnLeg(_, l) => [l.hand]
    case _ => []
  }

  function Finish(c: Car, r: Request, completed: bool): Car {
    c.(pc := Polling(Head), log := c.log.(served := c.log.served + [Outcome(r, completed)]))
  }

  /** `moveToFloor` returns. */
  function LeaveLeg(c: Car, l: Leg): Car {
    var missed := l.missed || c.floor != l.target;
    if l.delivering then Finish(c, l.hand, !missed) else c.(pc := Deliver(l.hand, missed))
  }

  function LegStep(c: Car, at: LegPoint, l: Leg): Car {
    match at
    case SetDirection => c.(direction := Toward(c.floor, l.target), pc := OnLeg(SetStatus, l))
    case SetStatus => c.(status := Moving, pc := OnLeg(SetDestination, l))
    case SetDestination => c.(dest := l.target, pc := OnLeg(LoopTest, l))
    case LoopTest => if c.floor == l.target || c.flag then LeaveLeg(c, l) else c.(pc := OnLeg(LoopRunning, l))
    case LoopRunning => if c.running then c.(pc := OnLeg(FloorStep, l)) else LeaveLeg(c, l)
    case FloorStep =>
      var next := if c.direction.Up? then c.floor + 1 else c.floor - 1;
      c.(floor := next,
         pc := OnLeg(if next == l.target then DoorsStopped else LoopTest, l),
         log := c.log.(trail := c.log.trail + [next]))
    case DoorsStopped => c.(status := Stopped, pc := OnLeg(DoorsDirection, l))
    case DoorsDirection => c.(direction := Direction.Idle, pc := OnLeg(DoorsIdle, l))
    case DoorsIdle =>
      c.(status := Status.Idle, pc := OnLeg(LoopTest, l), log := c.log.(doors := c.log.doors + 1))
  }

  function PollStep(at: PollPoint, running: bool, flag: bool, empty: bool): WorkerPc {
    match at
    case Head => if running then Polling(WaitRunning) else Exit
    case WaitRunning => if running then Polling(WaitFlag) else Polling(TestRunning)
    case WaitFlag => if flag then Polling(TestRunning) else Polling(WaitQueue)
    case WaitQueue => if empty then Polling(Asleep) else Polling(TestRunning)
    case Asleep => Polling(Asleep)
    case TestRunning => if running then Polling(TestFlag) else Exit
    case TestFlag => if flag then Polling(Head) else Pop
  }

  function WorkerStep(c: Car): Car {
    match c.pc
    case Polling(at) => c.(pc := PollStep(at, c.running, c.flag, c.queue == []))
    case Pop =>
      if c.queue == [] then c.(pc := IdleDirection)
      else c.(queue := c.queue[1..], pc := Pickup(c.queue[0]))
    case IdleDirection => c.(direction := Direction.Idle, pc := IdleStatus)
    case IdleStatus => c.(status := Status.Idle, pc := Polling(Head))
    case Pickup(r) =>
      c.(pc := if r.fromFloor != c.floor then OnLeg(SetDirection, Leg(r, r.fromFloor, false, false))
               else Deliver(r, false))
    case Deliver(r, missed) =>
      if r.toFloor != 0 && r.toFloor != c.floor
      then c.(pc := OnLeg(SetDirection, Leg(r, r.toFloor, true, missed)))
      else Finish(c, r, !missed)
    case OnLeg(at, l) => LegStep(c, at, l)
    case Exit => c
  }

  predicate CarEnabled(c: Car, a: CarAction, numFloors: int) {
    match a
    case Work => c.pc != Polling(Asleep) && !c.pc.Exit?
    case StoreStatus(s) => s.Idle? || s.Emergency?
    case Accept(r) => !HoldsMutex(c.pc) && ValidRequest(r, numFloors)
    case Refuse(r) => c.flag
    case _ => true
  }

  function CarNext(c: Car, a: CarAction): Car {
    match a
    case Work => WorkerStep(c)
    case RaiseFlag => c.(flag := true, log := c.log.(windows := c.log.windows + if c.flag then 0 else 1))
    case LowerFlag => c.(flag := false)
    case StoreStatus(s) => c.(status := s)
    case Halt => c.(running := false)
    case Rouse => if c.pc == Polling(Asleep) then c.(pc := Polling(WaitRunning)) else c
    case Accept(r) => c.(queue := c.queue + [r], log := c.log.(handed := c.log.handed + [r]))
    case Refuse(r) => c.(log := c.log.(rejected := c.log.rejected + [r]))
  }

  // ----- Histories of one elevator -----

  function CarRun(c: Car, acts: seq<CarAction>): Car {
    if acts == [] then c else CarNext(CarRun(c, acts[..|acts| - 1]), acts[|acts| - 1])
  }

  predicate CarFeasible(c: Car, acts: seq<CarAction>, numFloors: int) {
    acts == []
    || (CarFeasible(c, acts[..|acts| - 1], numFloors)
        && CarEnabled(CarRun(c, acts[..|acts| - 1]), acts[|acts| - 1], numFloors))
  }

  lemma HistoryExtends(c: Car, acts: seq<CarAction>, a: CarAction, numFloors: int)
    requires CarFeasible(c, acts, numFloors) && CarEnabled(CarRun(c, acts), a, numFloors)
    ensures CarFeasible(c, acts + [a], numFloors) && CarRun(c, acts + [a]) == CarNext(CarRun(c, acts), a)
  {
  }

  /** Some sequence of steps leads from `c` to `c'`. */
  ghost predicate CarReaches(c: Car, c': Car, numFloors: int) {
    exists acts :: CarFeasible(c, acts, numFloors) && c' == CarRun(c, acts)
  }

  lemma ReachesItself(c: Car, numFloors: int)
    ensures CarReaches(c, c, numFloors)
  {
    assert CarFeasible(c, [], numFloors) && CarRun(c, []) == c;
  }

  lemma ReachesNext(c: Car, c': Car, a: CarAction, numFloors: int)
    requires CarReaches(c, c', numFloors) && CarEnabled(c', a, numFloors)
    ensures CarReaches(c, CarNext(c', a), numFloors)
  {
    var acts :| CarFeasible(c, acts, numFloors) && c' == CarRun(c, acts);
    HistoryExtends(c, acts, a, numFloors);
    assert CarFeasible(c, acts + [a], numFloors);
  }

  // ----- Invariants that survive every interleaving -----

  function Requests(served: seq<Outcome>): (rs: seq<Request>)
    ensures |rs| == |served|
    ensures forall i :: 0 <= i < |rs| ==> rs[i] == served[i].request
  {
    seq(|served|, i requires 0 <= i < |served| => served[i].request)
  }

  /** Every request the worker has ever popped, in order. */
  function Taken(c: Car): seq<Request> {
    Requests(c.log.served) + InHand(c.pc)
  }

  /** The request in hand can no longer complete. */
  predicate MissedInHand(c: Car) {
    (c.pc.Deliver? && c.pc.missed) || (c.pc.OnLeg? && c.pc.leg.missed)
  }

  ghost predicate LegOk(l: Leg, numFloors: int) {
    && ValidRequest(l.hand, numFloors)
    && (if l.delivering then l.hand.toFloor != 0 && l.target == l.hand.toFloor
        else l.target == l.hand.fromFloor && !l.missed)
  }

  /** Inside the movement loop the direction is UP/DOWN exactly as the floor is below/above the destination. */
  ghost predicate LegPointOk(c: Car, at: LegPoint, l: Leg) {
    match at
    case SetDirection => c.floor != l.target
    case SetStatus => c.floor != l.target && c.direction == Toward(c.floor, l.target)
    case SetDestination => c.floor != l.target && c.direction == Toward(c.floor, l.target)
    case LoopTest => c.dest == l.target && (c.floor != l.target ==> c.direction == Toward(c.floor, l.target))
    case LoopRunning => c.dest == l.target && c.floor != l.target && c.direction == Toward(c.floor, l.target)
    case FloorStep => c.dest == l.target && c.floor != l.target && c.direction == Toward(c.floor, l.target)
    case _ => c.floor == c.dest == l.target
  }

  /** In the movement loop, before the doors. */
  predicate InLoop(c: Car) {
    c.pc.OnLeg? && (c.pc.at.LoopTest? || c.pc.at.LoopRunning? || c.pc.at.FloorStep?)
  }

  /** What the worker knows about its own fields at each point. */
  ghost predicate PcOk(c: Car, numFloors: int) {
    match c.pc
    case Pickup(r) => ValidRequest(r, numFloors)
    case Deliver(r, missed) => ValidRequest(r, numFloors) && (!missed ==> c.floor == r.fromFloor)
    case OnLeg(at, l) => LegOk(l, numFloors) && LegPointOk(c, at, l)
    case _ => true
  }

  /** Position safety, and STOPPED only at the destination with the doors working. */
  ghost predicate MotionInv(c: Car, numFloors: int) {
    && InRange(c.floor, numFloors)
    && InRange(c.dest, numFloors)
    && PcOk(c, numFloors)
    && (c.status.Stopped? ==> c.pc.OnLeg? && (c.pc.at.DoorsDirection? || c.pc.at.DoorsIdle?))
  }

  /** What was handed over is what was served, then what is in hand, then what is queued. */
  ghost predicate FlowInv(c: Car, numFloors: int) {
    && (forall r :: r in c.queue || r in c.log.handed ==> ValidRequest(r, numFloors))
    && c.log.handed == Requests(c.log.served) + InHand(c.pc) + c.queue
    && (c.flag ==> c.log.windows > 0)
    && (c.pc.Exit? ==> !c.running)
  }

  ghost predicate CarInv(c: Car, numFloors: int) {
    MotionInv(c, numFloors) && FlowInv(c, numFloors)
  }

  /** These are other threads' to store. */
  lemma WorkerKeepsFlags(c: Car)
    ensures WorkerStep(c).flag == c.flag && WorkerStep(c).running == c.running
    ensures WorkerStep(c).log.windows == c.log.windows
  {
  }

  lemma FreshCarOk(start: int, numFloors: int)
    requires InRange(start, numFloors)
    ensures CarInv(Fresh(start), numFloors)
  {
  }

  lemma RequestsExtends(served: seq<Outcome>, o: Outcome)
    ensures Requests(served + [o]) == Requests(served) + [o.request]
  {
  }

  lemma FinishKeepsFlow(c: Car, r: Request, completed: bool, numFloors: int)
    requires FlowInv(c, numFloors) && InHand(c.pc) == [r]
    ensures FlowInv(Finish(c, r, completed), numFloors)
  {
  }

  lemma LegKeepsFlow(c: Car, at: LegPoint, l: Leg, numFloors: int)
    requires c.pc == OnLeg(at, l) && FlowInv(c, numFloors)
    ensures FlowInv(LegStep(c, at, l), numFloors)
  {
    match at
    case LoopTest => FinishKeepsFlow(c, l.hand, !(l.missed || c.floor != l.target), numFloors);
    case LoopRunning => FinishKeepsFlow(c, l.hand, !(l.missed || c.floor != l.target), numFloors);
    case _ =>
  }

  lemma PopKeepsFlow(c: Car, numFloors: int)
    requires c.pc.Pop? && FlowInv(c, numFloors)
    ensures FlowInv(WorkerStep(c), numFloors)
  {
  }

  lemma WorkerKeepsFlow(c: Car, numFloors: int)
    requires FlowInv(c, numFloors)
    ensures FlowInv(WorkerStep(c), numFloors)
  {
    match c.pc
    case OnLeg(at, l) => LegKeepsFlow(c, at, l, numFloors);
    case Deliver(r, missed) => FinishKeepsFlow(c, r, !missed, numFloors);
    case Pickup(_) =>
    case Pop => PopKeepsFlow(c, numFloors);
    case _ =>
      assert InHand(WorkerStep(c).pc) == InHand(c.pc) == [];
  }

  lemma LegKeepsMotion(c: Car, at: LegPoint, l: Leg, numFloors: int)
    requires c.pc == OnLeg(at, l) && MotionInv(c, numFloors)
    ensures MotionInv(LegStep(c, at, l), numFloors)
  {
  }

  lemma WorkerKeepsMotion(c: Car, numFloors: int)
    requires MotionInv(c, numFloors)
    requires c.pc.Pop? ==> forall r :: r in c.queue ==> ValidRequest(r, numFloors)
    ensures MotionInv(WorkerStep(c), numFloors)
  {
    match c.pc
    case OnLeg(at, l) => LegKeepsMotion(c, at, l, numFloors);
    case Pickup(_) =>
    case Deliver(_, _) =>
    case _ =>
  }

  lemma CarNextKeepsInv(c: Car, a: CarAction, numFloors: int)
    requires CarInv(c, numFloors) && CarEnabled(c, a, numFloors)
    ensures CarInv(CarNext(c, a), numFloors)
  {
    if a.Work? {
      WorkerKeepsFlow(c, numFloors);
      WorkerKeepsMotion(c, numFloors);
    }
  }

  lemma {:induction false} HistoryKeepsInv(c: Car, acts: seq<CarAction>, numFloors: int)
    requires CarInv(c, numFloors) && CarFeasible(c, acts, numFloors)
    ensures CarInv(CarRun(c, acts), numFloors)
    decreases |acts|
  {
    if acts != [] {
      var n := |acts| - 1;
      HistoryKeepsInv(c, acts[..n], numFloors);
      CarNextKeepsInv(CarRun(c, acts[..n]), acts[n], numFloors);
    }
  }

  /** Every state an elevator can get into satisfies the invariant. */
  lemma ReachedCarOk(c: Car, c': Car, numFloors: int)
    requires CarInv(c, numFloors) && CarReaches(c, c', numFloors)
    ensures CarInv(c', numFloors)
  {
    var acts :| CarFeasible(c, acts, numFloors) && c' == CarRun(c, acts);
    HistoryKeepsInv(c, acts, numFloors);
  }
}

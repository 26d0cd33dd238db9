/**
 The elevator object. Its worker methods run the source's statements with
 arbitrary interference from other threads between any two of them, and a
 ghost copy `car` shows that each statement is a step of CarProtocol.
 */
module Elevators {
  import opened Domain
  import Dispatch
  import opened CarProtocol

  class Elevator {
    const id: int
    const numFloors: nat
    var currentFloor: int
    var destinationFloor: int
    var direction: Direction
    var status: Status
    var emergencyStop: bool
    var running: bool
    var requests: seq<Request>

    ghost var car: Car     // the protocol's view of this elevator
    ghost var since: Car   // that view when the worker's current round began

    /** The ghost copy agrees with the fields, and only protocol steps have led to it. */
    ghost predicate Valid()
      reads this
    {
      && car.floor == currentFloor && car.dest == destinationFloor
      && car.direction == direction && car.status == status
      && car.flag == emergencyStop && car.running == running && car.queue == requests
      && Traced()
    }

    ghost predicate Traced()
      reads this
    {
      CarInv(since, numFloors) && CarReaches(since, car, numFloors)
    }

    ghost function Seen(): Dispatch.View
      reads this
    {
      Dispatch.View(id, currentFloor, direction, status, emergencyStop)
    }

    /** Construction and `start`, which every creator of an elevator calls next. */
    constructor (elevatorId: int, start: int, floors: nat)
      requires InRange(start, floors)
      ensures Valid() && id == elevatorId && numFloors == floors && currentFloor == start
      ensures car == Fresh(start) && requests == []
    {
      id, numFloors := elevatorId, floors;
      currentFloor, destinationFloor := start, start;
      direction, status := Direction.Idle, Status.Idle;
      emergencyStop, running := false, true;
      requests := [];
      since, car := Fresh(start), Fresh(start);
      new;
      FreshCarOk(start, floors);
      ReachesItself(car, floors);
    }

    /** Records that the statement just executed is the protocol's step `a`. */
    ghost method Record(a: CarAction)
      requires Traced() && CarEnabled(car, a, numFloors)
      modifies this`car
      ensures Traced() && car == CarNext(old(car), a)
    {
      ReachesNext(since, car, a, numFloors);
      car := CarNext(car, a);
    }

    // ----- Calls from other threads -----

    method EmergencyStopActivate()
      requires Valid()
      modifies `emergencyStop, `status, `car
      ensures Valid() && emergencyStop && status == Emergency
      ensures car == CarNext(CarNext(CarNext(old(car), RaiseFlag), StoreStatus(Emergency)), Rouse)
    {
      emergencyStop := true;
      Record(RaiseFlag);
      status := Emergency;
      Record(StoreStatus(Emergency));
      Record(Rouse);
    }

    method EmergencyStopRelease()
      requires Valid()
      modifies `emergencyStop, `status, `car
      ensures Valid() && !emergencyStop && status == Status.Idle
      ensures car == CarNext(CarNext(old(car), LowerFlag), StoreStatus(Status.Idle))
    {
      emergencyStop := false;
      Record(LowerFlag);
      status := Status.Idle;
      Record(StoreStatus(Status.Idle));
    }

    /** Up to the join of the worker thread. */
    method Stop()
      requires Valid()
      modifies `running, `car
      ensures Valid() && !running
      ensures car == if old(running) then CarNext(CarNext(old(car), Halt), Rouse) else old(car)
    {
      if !running {
        return;
      }
      running := false;
      Record(Halt);
      Record(Rouse);
    }

    /** With the mutex available and no other thread between the test and the push. */
    method AddRequest(request: Request) returns (accepted: bool)
      requires Valid() && ValidRequest(request, numFloors) && !HoldsMutex(car.pc)
      modifies `requests, `car
      ensures Valid() && accepted == !old(emergencyStop)
      ensures requests == old(requests) + if accepted then [request] else []
      ensures car == if accepted then CarNext(CarNext(old(car), Accept(request)), Rouse)
                     else CarNext(old(car), Refuse(request))
    {
      if emergencyStop {
        Record(Refuse(request));
        return false;
      }
      requests := requests + [request];
      Record(Accept(request));
      Record(Rouse);
      return true;
    }

    /** In the movement loop short of the destination, and shown as moving. */
    ghost predicate UnderWay()
      reads this
    {
      InLoop(car) && currentFloor != destinationFloor && status == Moving
    }

    /** On the far side of the elevator, seen from its destination. */
    predicate LiesBehind(floor: int)
      reads this
    {
      floor < currentFloor < destinationFloor || destinationFloor < currentFloor < floor
    }

    /** Estimated travel; floors behind a moving elevator cost two lengths of the building more. */
    method CalculateDistance(floor: int) returns (distance: int)
      ensures distance == Dispatch.Estimate(Seen(), floor, numFloors)
      ensures Valid() && UnderWay() ==>
                distance == Distance(currentFloor, floor) + if LiesBehind(floor) then 2 * (numFloors - 1) else 0
      ensures status != Moving ==>
                distance == if currentFloor < floor then floor - currentFloor else currentFloor - floor
    {
      if Valid() && UnderWay() {
        ReachedCarOk(since, car, numFloors);
      }
      distance := if currentFloor < floor then floor - currentFloor else currentFloor - floor;
      if status == Moving {
        if (direction == Up && floor < currentFloor) || (direction == Down && floor > currentFloor) {
          distance := distance + 2 * (numFloors - 1);
        }
      }
    }

    // ----- The worker thread -----

    /** What other threads cannot change between two statements of the worker. */
    twostate predicate Undisturbed()
      reads this
    {
      && currentFloor == old(currentFloor) && destinationFloor == old(destinationFloor)
      && direction == old(direction) && car.pc == old(car.pc)
      && car.log.served == old(car.log.served) && car.log.trail == old(car.log.trail)
      && since == old(since)
      && car.log.windows >= old(car.log.windows)
      && (emergencyStop ==> old(emergencyStop) || car.log.windows > old(car.log.windows))
      && (running ==> old(running))
      && (status == old(status) || status == Status.Idle || status == Emergency)
    }

    /** Other threads get to run: any number of foreign steps, a push only while the worker is off the mutex. */
    method Interfere(locked: bool)
      requires Valid() && car.pc != Polling(Asleep) && (locked <==> HoldsMutex(car.pc))
      modifies this
      ensures Valid() && Undisturbed()
    {
      var n: nat := *;
      while n > 0
        invariant Valid() && Undisturbed()
      {
        OneForeignStep(locked);
        n := n - 1;
      }
    }

    method OneForeignStep(locked: bool)
      requires Valid() && car.pc != Polling(Asleep) && (locked <==> HoldsMutex(car.pc))
      modifies this
      ensures Valid() && Undisturbed()
    {
      var choice: int := *;
      var request: Request := *;
      if choice == 0 {
        FlagStore();
      } else if choice == 1 {
        OtherStore();
      } else if choice == 2 && emergencyStop {
        Record(Refuse(request));
      } else if choice == 3 && !locked && ValidRequest(request, numFloors) {
        requests := requests + [request];
        Record(Accept(request));
      }
    }

    /** A flag store of `emergencyStopActivate` or `emergencyStopRelease`, or `running = false` in `stop`. */
    method FlagStore()
      requires Valid() && car.pc != Polling(Asleep)
      modifies this
      ensures Valid() && Undisturbed() && requests == old(requests)
    {
      var choice: int := *;
      if choice == 0 {
        emergencyStop := true;
        Record(RaiseFlag);
      } else if choice == 1 {
        emergencyStop := false;
        Record(LowerFlag);
      } else {
        running := false;
        Record(Halt);
      }
    }

    /** Their status stores and notifications. */
    method OtherStore()
      requires Valid() && car.pc != Polling(Asleep)
      modifies this
      ensures Valid() && Undisturbed() && requests == old(requests)
    {
      var choice: int := *;
      if choice == 0 {
        status := Emergency;
        Record(StoreStatus(Emergency));
      } else if choice == 1 {
        status := Status.Idle;
        Record(StoreStatus(Status.Idle));
      } else {
        Record(Rouse);
      }
    }

    /** The statement just executed is the worker's next step inside `moveToFloor`. */
    ghost method RecordLeg(at: LegPoint, l: Leg)
      requires Traced() && car.pc == OnLeg(at, l)
      modifies this`car
      ensures Traced() && car == LegStep(old(car), at, l)
    {
      Record(Work);
    }

    /** Where `moveToFloor` leaves the worker. */
    ghost predicate LeftLeg(l: Leg)
      reads this
    {
      var missed := l.missed || currentFloor != l.target;
      car.pc == if l.delivering then Polling(Head) else Deliver(l.hand, missed)
    }

    /** What a stretch of worker code keeps: a flag newly set is a window opened, and `running` stays cleared. */
    twostate predicate Onward()
      reads this
    {
      && since == old(since)
      && car.log.windows >= old(car.log.windows)
      && (emergencyStop ==> old(emergencyStop) || car.log.windows > old(car.log.windows))
      && (running ==> old(running))
    }

    /** The loop test `currentFloor != floor && !emergencyStop && running`, read left to right. */
    method TestLoop(floor: int, ghost l: Leg) returns (again: bool)
      requires Valid() && car.pc == OnLeg(LoopTest, l) && l.target == floor
      modifies this
      ensures Valid() && Onward() && currentFloor == old(currentFloor) && destinationFloor == old(destinationFloor)
      ensures again ==> car.pc == OnLeg(FloorStep, l) && car.log.served == old(car.log.served)
      ensures !again ==> LeftLeg(l) && car.log.served == old(car.log.served) + Ending(l)
      ensures !again && currentFloor != floor ==>
                old(emergencyStop) || car.log.windows > old(car.log.windows) || !running
      ensures direction == old(direction)
      ensures status == old(status) || status == Status.Idle || status == Emergency
    {
      ReachedCarOk(since, car, numFloors);
      if currentFloor == floor || emergencyStop {
        RecordLeg(LoopTest, l);
        return false;
      }
      RecordLeg(LoopTest, l);
      Interfere(false);
      again := running;
      RecordLeg(LoopRunning, l);
    }

    /** What leaving the leg adds to the requests served. */
    ghost function Ending(l: Leg): seq<Outcome>
      reads this
    {
      if l.delivering then [Outcome(l.hand, !(l.missed || currentFloor != l.target))] else []
    }

    method StoreHeading(floor: int, ghost l: Leg)
      requires Valid() && car.pc == OnLeg(SetDirection, l) && l.target == floor
      modifies this
      ensures Valid() && Onward() && car.pc == OnLeg(LoopTest, l)
      ensures currentFloor == old(currentFloor) && destinationFloor == floor
      ensures car.log.served == old(car.log.served)
    {
      direction := if floor > currentFloor then Up else Down;
      RecordLeg(SetDirection, l);
      Interfere(false);
      StoreDestination(floor, l);
    }

    method StoreDestination(floor: int, ghost l: Leg)
      requires Valid() && car.pc == OnLeg(SetStatus, l) && l.target == floor
      modifies this
      ensures Valid() && Onward() && car.pc == OnLeg(LoopTest, l)
      ensures currentFloor == old(currentFloor) && destinationFloor == floor
      ensures car.log.served == old(car.log.served)
    {
      status := Moving;
      RecordLeg(SetStatus, l);
      Interfere(false);
      destinationFloor := floor;
      RecordLeg(SetDestination, l);
    }

    method StepFloor(floor: int, ghost l: Leg)
      requires Valid() && car.pc == OnLeg(FloorStep, l) && l.target == floor
      modifies this
      ensures Valid() && Onward() && car.pc == OnLeg(LoopTest, l)
      ensures Distance(old(currentFloor), currentFloor) == 1
      ensures Distance(currentFloor, floor) == Distance(old(currentFloor), floor) - 1
      ensures destinationFloor == old(destinationFloor)
      ensures car.log.served == old(car.log.served)
      ensures currentFloor == floor ==> direction == Direction.Idle && status == Status.Idle
    {
      ReachedCarOk(since, car, numFloors);
      if direction == Up {
        currentFloor := currentFloor + 1;
      } else {
        currentFloor := currentFloor - 1;
      }
      RecordLeg(FloorStep, l);
      Interfere(false);
      if currentFloor == floor {
        WorkDoors(l);
      }
    }

    method WorkDoors(ghost l: Leg)
      requires Valid() && car.pc == OnLeg(DoorsStopped, l)
      modifies this
      ensures Valid() && Onward() && car.pc == OnLeg(LoopTest, l)
      ensures currentFloor == old(currentFloor) && destinationFloor == old(destinationFloor)
      ensures car.log.served == old(car.log.served)
      ensures direction == Direction.Idle && status == Status.Idle
    {
      status := Stopped;
      RecordLeg(DoorsStopped, l);
      Interfere(false);
      CloseDoors(l);
    }

    method CloseDoors(ghost l: Leg)
      requires Valid() && car.pc == OnLeg(DoorsDirection, l)
      modifies this
      ensures Valid() && Onward() && car.pc == OnLeg(LoopTest, l)
      ensures currentFloor == old(currentFloor) && destinationFloor == old(destinationFloor)
      ensures car.log.served == old(car.log.served)
      ensures direction == Direction.Idle && status == Status.Idle
    {
      direction := Direction.Idle;
      RecordLeg(DoorsDirection, l);
      Interfere(false);
      StoreIdle(l);
    }

    method StoreIdle(ghost l: Leg)
      requires Valid() && car.pc == OnLeg(DoorsIdle, l)
      modifies this
      ensures Valid() && Onward() && car.pc == OnLeg(LoopTest, l)
      ensures currentFloor == old(currentFloor) && destinationFloor == old(destinationFloor)
      ensures car.log.served == old(car.log.served)
      ensures direction == old(direction) && status == Status.Idle
    {
      status := Status.Idle;
      RecordLeg(DoorsIdle, l);
    }

    /**
     `moveToFloor`: never overshoots, and stops short only if the flag was set
     when it began, or an emergency or a shutdown came in between.
     */
    method MoveToFloor(floor: int, ghost l: Leg)
      requires Valid() && l.target == floor
      requires if floor == currentFloor then LeftLeg(l) else car.pc == OnLeg(SetDirection, l)
      modifies this
      ensures Valid() && Onward() && LeftLeg(l)
      ensures Distance(old(currentFloor), currentFloor) + Distance(currentFloor, floor)
           == Distance(old(currentFloor), floor)
      ensures currentFloor != floor ==> old(emergencyStop) || car.log.windows > old(car.log.windows) || !running
      ensures floor == old(currentFloor) ==> unchanged(this)
      ensures floor != old(currentFloor) ==>
                destinationFloor == floor && car.log.served == old(car.log.served) + Ending(l)
      ensures floor != old(currentFloor) && currentFloor == floor ==>
                direction == Direction.Idle && (status == Status.Idle || status == Emergency)
    {
      if floor == currentFloor {
        return;
      }
      StoreHeading(floor, l);
      Interfere(false);
      var again := TestLoop(floor, l);
      while again
        invariant Valid() && Onward() && destinationFloor == floor
        invariant Distance(old(currentFloor), currentFloor) + Distance(currentFloor, floor)
               == Distance(old(currentFloor), floor)
        invariant again ==> car.pc == OnLeg(FloorStep, l) && car.log.served == old(car.log.served)
        invariant !again ==> LeftLeg(l) && car.log.served == old(car.log.served) + Ending(l)
        invariant !again && currentFloor != floor ==>
                    old(emergencyStop) || car.log.windows > old(car.log.windows) || !running
        invariant currentFloor == floor ==>
                    direction == Direction.Idle && (status == Status.Idle || status == Emergency)
        decreases Distance(currentFloor, floor), again
      {
        Interfere(false);
        StepFloor(floor, l);
        Interfere(false);
        again := TestLoop(floor, l);
      }
    }

    /** The worker is off the mutex and past its wait: about to loop, asleep, or gone. */
    ghost predicate BetweenRounds()
      reads this
    {
      car.pc == Polling(Head) || car.pc == Polling(Asleep) || car.pc == Exit
    }

    /** The statement just executed is the worker's next step in its wait. */
    ghost method RecordPoll(at: PollPoint)
      requires Traced() && car.pc == Polling(at) && !at.Asleep?
      modifies this`car
      ensures Traced() && car == old(car).(pc := PollStep(at, old(car).running, old(car).flag, old(car).queue == []))
    {
      Record(Work);
    }

    /** The wait predicate `!running || emergencyStop || !requests.empty()`; false puts the worker to sleep. */
    method WaitPredicate() returns (holds: bool)
      requires Valid() && car.pc == Polling(WaitRunning)
      modifies this
      ensures Valid() && Onward() && currentFloor == old(currentFloor) && car.log.served == old(car.log.served)
      ensures car.pc == Polling(if holds then TestRunning else Asleep)
    {
      var on := running;
      RecordPoll(WaitRunning);
      Interfere(true);
      if on {
        var flagged := emergencyStop;
        RecordPoll(WaitFlag);
        Interfere(true);
        if !flagged {
          holds := requests != [];
          RecordPoll(WaitQueue);
          return;
        }
      }
      holds := true;
    }

    /** After the wait: the two tests and the pop, under the mutex. */
    method TakeRequest() returns (taken: Option<Request>, idle: bool)
      requires Valid() && car.pc == Polling(TestRunning)
      modifies this
      ensures Valid() && Onward() && currentFloor == old(currentFloor) && car.log.served == old(car.log.served)
      ensures taken.Some? ==>
                car.pc == Pickup(taken.value) && (emergencyStop ==> car.log.windows > old(car.log.windows))
      ensures taken.None? ==> if idle then car.pc == IdleDirection else car.pc == Exit || car.pc == Polling(Head)
    {
      var on := running;
      RecordPoll(TestRunning);
      if !on {
        return None, false;
      }
      Interfere(true);
      var flagged := emergencyStop;
      RecordPoll(TestFlag);
      if flagged {
        return None, false;
      }
      Interfere(true);
      taken := PopRequest();
      idle := taken.None?;
    }

    method PopRequest() returns (taken: Option<Request>)
      requires Valid() && car.pc == Pop
      modifies this
      ensures Valid() && Onward() && currentFloor == old(currentFloor) && car.log.served == old(car.log.served)
      ensures taken == if old(requests) == [] then None else Some(old(requests)[0])
      ensures requests == if old(requests) == [] then [] else old(requests)[1..]
      ensures car.pc == if taken.Some? then Pickup(taken.value) else IdleDirection
    {
      if requests == [] {
        Record(Work);
        return None;
      }
      taken := Some(requests[0]);
      requests := requests[1..];
      Record(Work);
    }

    /** No request after all: an emergency was raised and released during the wait. */
    method GoIdle()
      requires Valid() && car.pc == IdleDirection
      modifies this
      ensures Valid() && Onward() && currentFloor == old(currentFloor) && car.log.served == old(car.log.served)
      ensures car.pc == Polling(Head)
      ensures direction == Direction.Idle && status == Status.Idle
    {
      direction := Direction.Idle;
      Record(Work);
      Interfere(false);
      status := Status.Idle;
      Record(Work);
    }

    /** The decision at the pickup floor, and the leg there if one is needed. */
    method GoToPickup(request: Request)
      requires Valid() && car.pc == Pickup(request)
      modifies this
      ensures Valid() && Onward() && car.log.served == old(car.log.served)
      ensures car.pc == Deliver(request, currentFloor != request.fromFloor)
      ensures currentFloor != request.fromFloor ==>
                old(emergencyStop) || car.log.windows > old(car.log.windows) || !running
    {
      var away := request.fromFloor != currentFloor;
      Record(Work);
      if away {
        Interfere(false);
        MoveToFloor(request.fromFloor, Leg(request, request.fromFloor, false, false));
      }
    }

    /** The decision whether to travel on, and the delivery leg if one is needed. */
    method GoToDestination(request: Request, ghost missed: bool) returns (ghost completed: bool)
      requires Valid() && car.pc == Deliver(request, missed)
      modifies this
      ensures Valid() && Onward() && car.pc == Polling(Head)
      ensures car.log.served == old(car.log.served) + [Outcome(request, completed)]
      ensures completed ==> !missed && (request.toFloor != 0 ==> currentFloor == request.toFloor)
      ensures completed && request.toFloor == 0 ==> currentFloor == old(currentFloor)
      ensures !completed ==> missed || old(emergencyStop) || car.log.windows > old(car.log.windows) || !running
    {
      ghost var l := Leg(request, request.toFloor, true, missed);
      ghost var moving := request.toFloor != 0 && request.toFloor != currentFloor;
      completed := !missed;
      Record(Work);
      if request.toFloor != 0 {
        Interfere(false);
        MoveToFloor(request.toFloor, l);
        if moving {
          completed := !missed && currentFloor == request.toFloor;
        }
      }
    }

    /**
     One round of `processRequests`, from the loop head or from a wake-up. A
     request that completes leaves the elevator at its last floor; one that does
     not has met an emergency raised during the round, or a shutdown. Whatever the interference, the round
     is a sequence of protocol steps.
     */
    method ServeNext(woken: bool) returns (taken: Option<Request>, ghost completed: bool)
      requires Valid() && car.pc == Polling(if woken then WaitRunning else Head)
      modifies this
      ensures Valid() && BetweenRounds()
      ensures car.log.served == old(car.log.served) + if taken.Some? then [Outcome(taken.value, completed)] else []
      ensures taken.Some? && completed ==>
                currentFloor == if taken.value.toFloor != 0 then taken.value.toFloor else taken.value.fromFloor
      ensures taken.Some? && !completed ==> car.log.windows > old(car.log.windows) || !running
      ensures taken.None? ==> currentFloor == old(currentFloor)
      ensures CarReaches(old(car), car, numFloors)
    {
      ReachedCarOk(since, car, numFloors);
      ReachesItself(car, numFloors);
      since := car;
      taken, completed := RunRound(woken);
    }

    method RunRound(woken: bool) returns (taken: Option<Request>, ghost completed: bool)
      requires Valid() && car.pc == Polling(if woken then WaitRunning else Head)
      modifies this
      ensures Valid() && Onward() && BetweenRounds()
      ensures car.log.served == old(car.log.served) + if taken.Some? then [Outcome(taken.value, completed)] else []
      ensures taken.Some? && completed ==>
                currentFloor == if taken.value.toFloor != 0 then taken.value.toFloor else taken.value.fromFloor
      ensures taken.Some? && !completed ==> car.log.windows > old(car.log.windows) || !running
      ensures taken.None? ==> currentFloor == old(currentFloor)
    {
      taken, completed := None, false;
      if !woken {
        var on := running;
        RecordPoll(Head);
        if !on {
          return;
        }
        Interfere(false);
      }
      var holds := WaitPredicate();
      if !holds {
        return;
      }
      Interfere(true);
      var idle: bool;
      taken, idle := TakeRequest();
      if taken.Some? {
        Interfere(false);
        GoToPickup(taken.value);
        Interfere(false);
        completed := GoToDestination(taken.value, currentFloor != taken.value.fromFloor);
      } else if idle {
        Interfere(false);
        GoIdle();
      }
    }
  }
}

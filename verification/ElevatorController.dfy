/** The controller object: the pending queue, the dispatch scan, the emergency broadcasts and the sync pass. */
module ElevatorControllers {
  import opened Domain
  import Dispatch
  import opened CarProtocol
  import opened Elevators
  import opened SyncProtocol
  import opened DatabaseLoggers

  /** One tuple of `getElevatorStatuses`. */
  datatype StatusEntry = StatusEntry(id: int, currentFloor: int, destFloor: int, direction: Direction, status: Status)

  /** What the dispatcher's scan would see. */
  ghost function ViewsOf(elevators: seq<Elevator>): (views: seq<Dispatch.View>)
    reads elevators
    ensures |views| == |elevators|
    ensures forall k :: 0 <= k < |views| ==> views[k] == elevators[k].Seen()
  {
    seq(|elevators|, k requires 0 <= k < |elevators| reads elevators => elevators[k].Seen())
  }

  /** The protocol's view of the list. */
  ghost function EntriesOf(elevators: seq<Elevator>): (entries: seq<Entry<Car>>)
    reads elevators
    ensures |entries| == |elevators|
    ensures forall k :: 0 <= k < |entries| ==> entries[k] == EntryOf(elevators[k])
  {
    seq(|elevators|, k requires 0 <= k < |elevators| reads elevators => EntryOf(elevators[k]))
  }

  ghost function EntryOf(e: Elevator): Entry<Car>
    reads e
  {
    Entry(e.id, e.car)
  }

  lemma PassIsExact(t: Table, entries: seq<Entry<Car>>)
    requires Distinct(entries)
    ensures var t' := Upserted(t, entries);
            Distinct(Merge(entries, Select(t'))) && Ids(Merge(entries, Select(t'))) == t'.Keys
  {
    WritePassIsExact(t, entries);
    SelectIsComplete(Upserted(t, entries));
    MergeIsExact(entries, Select(Upserted(t, entries)));
  }

  class ElevatorController {
    const numFloors: nat
    var elevators: seq<Elevator>
    var pendingRequests: seq<Request>
    var running: bool
    const dbLogger: DatabaseLogger

    ghost predicate Valid()
      reads this, elevators
    {
      && numFloors <= INT_MAX
      && (forall r :: r in pendingRequests ==> ValidRequest(r, numFloors))
      && (forall k :: 0 <= k < |elevators| ==> elevators[k].Valid() && elevators[k].numFloors == numFloors)
      && (forall j, k :: 0 <= j < k < |elevators| ==> elevators[j] != elevators[k])
    }

    constructor (numElevators: nat, floors: nat, logger: DatabaseLogger)
      requires 1 <= floors <= INT_MAX
      ensures Valid() && numFloors == floors && dbLogger == logger && pendingRequests == []
      ensures |elevators| == numElevators
      ensures forall k :: 0 <= k < numElevators ==> elevators[k].id == k && elevators[k].car == Fresh(1)
      ensures fresh(elevators) && running
    {
      hide CarReaches, CarInv;
      numFloors, dbLogger, running := floors, logger, true;
      elevators, pendingRequests := [], [];
      new;
      for i := 0 to numElevators
        invariant Valid() && fresh(elevators) && pendingRequests == [] && running
        invariant |elevators| == i
        invariant forall k :: 0 <= k < i ==> elevators[k].id == k && elevators[k].car == Fresh(1)
      {
        var elevator := new Elevator(i, 1, numFloors);
        elevators := elevators + [elevator];
      }
    }

    /** Malformed requests are dropped; the rest join the queue. */
    method AddRequest(fromFloor: int, toFloor: int, direction: Direction)
      requires Valid()
      modifies this`pendingRequests
      ensures Valid()
      ensures pendingRequests
           == old(pendingRequests)
              + if 1 <= fromFloor <= numFloors && (toFloor == 0 || 1 <= toFloor <= numFloors)
                then [Request(fromFloor, toFloor, direction)] else []
    {
      if fromFloor < 1 || fromFloor > numFloors {
        return;
      }
      if toFloor != 0 && (toFloor < 1 || toFloor > numFloors) {
        return;
      }
      pendingRequests := pendingRequests + [Request(fromFloor, toFloor, direction)];
    }

    /** The elevator at index `best`, or null. */
    ghost predicate IsAt(elevator: Elevator?, best: Option<nat>)
      reads this
    {
      match best
      case None => elevator == null
      case Some(k) => k < |elevators| && elevator == elevators[k]
    }

    /**
     The loop returns the lexicographically best unflagged elevator, the first
     of equals, or null if all are flagged.
     */
    method FindBestElevator(request: Request) returns (bestElevator: Elevator?)
      requires Valid() && Dispatch.Fits(numFloors) && InRange(request.fromFloor, numFloors)
      ensures exists best :: Dispatch.IsBest(ViewsOf(elevators), request.fromFloor, best) && IsAt(bestElevator, best)
    {
      hide CarReaches, CarInv;
      bestElevator := null;
      var shortestDistance := INT_MAX;
      ghost var best: Option<nat> := None;
      ghost var views := ViewsOf(elevators);
      OnFloors();
      for k := 0 to |elevators|
        invariant Dispatch.Scanned(views, k, request.fromFloor, numFloors, Dispatch.Cursor(best, shortestDistance))
        invariant IsAt(bestElevator, best) && (best.Some? ==> best.value < k)
      {
        Dispatch.LookExtendsScan(views, k, request.fromFloor, numFloors, Dispatch.Cursor(best, shortestDistance));
        var elevator := elevators[k];
        if !elevator.emergencyStop {
          var distance := elevator.CalculateDistance(request.fromFloor);
          if elevator.status == Status.Idle {
            distance := distance - numFloors;
          }
          if distance < shortestDistance {
            shortestDistance, bestElevator, best := distance, elevator, Some(k);
          }
        }
      }
      assert views[..|elevators|] == views;
      assert Dispatch.IsBest(views, request.fromFloor, best) && IsAt(bestElevator, best);
    }

    lemma OnFloors()
      requires Valid()
      ensures Dispatch.OnFloors(ViewsOf(elevators), numFloors)
    {
      forall k | 0 <= k < |elevators|
        ensures InRange(elevators[k].currentFloor, numFloors)
      {
        ReachedCarOk(elevators[k].since, elevators[k].car, numFloors);
      }
    }

    /** No worker is inside its own critical section, so the dispatcher's pushes do not block. */
    ghost predicate MutexesFree()
      reads this, elevators
    {
      forall k :: 0 <= k < |elevators| ==> !HoldsMutex(elevators[k].car.pc)
    }

    /** One round of `dispatcherLoop`: hand the oldest request to the best elevator, or put it at the back. */
    method DispatchNext() returns (ghost chosen: Option<nat>)
      requires Valid() && MutexesFree() && Dispatch.Fits(numFloors)
      modifies `pendingRequests, Fleet()`requests, Fleet()`car
      ensures Valid()
      ensures var q := old(pendingRequests);
              && (q == [] ==> pendingRequests == [] && chosen == None)
              && (q != [] ==>
                    && Dispatch.IsBest(old(ViewsOf(elevators)), q[0].fromFloor, chosen)
                    && pendingRequests == q[1..] + if chosen.Some? then [] else [q[0]])
              && forall k :: 0 <= k < |elevators| ==>
                   elevators[k].requests == old(elevators[k].requests) + if chosen == Some(k) then [q[0]] else []
    {
      hide CarReaches, CarInv;
      chosen := None;
      if pendingRequests == [] {
        return;
      }
      var currentRequest := pendingRequests[0];
      pendingRequests := pendingRequests[1..];
      assert currentRequest in old(pendingRequests);
      var bestElevator := FindBestElevator(currentRequest);
      chosen :| Dispatch.IsBest(ViewsOf(elevators), currentRequest.fromFloor, chosen) && IsAt(bestElevator, chosen);
      if bestElevator != null {
        var accepted := bestElevator.AddRequest(currentRequest);
      } else {
        pendingRequests := pendingRequests + [currentRequest];
      }
    }

    ghost function Fleet(): set<Elevator>
      reads this
    {
      set e | e in elevators
    }

    /** One elevator of a broadcast; all the others are untouched. */
    method ActivateOne(elevator: Elevator)
      requires Valid() && elevator in elevators
      modifies elevator`emergencyStop, elevator`status, elevator`car
      ensures Valid() && elevator.emergencyStop && elevator.status == Emergency
    {
      elevator.EmergencyStopActivate();
    }

    method ReleaseOne(elevator: Elevator)
      requires Valid() && elevator in elevators
      modifies elevator`emergencyStop, elevator`status, elevator`car
      ensures Valid() && !elevator.emergencyStop && elevator.status == Status.Idle
    {
      elevator.EmergencyStopRelease();
    }

    /** Raises every flag and shows every elevator as in emergency; nothing else changes. */
    method EmergencyStop()
      requires Valid()
      modifies Fleet()`emergencyStop, Fleet()`status, Fleet()`car
      ensures Valid()
      ensures forall k :: 0 <= k < |elevators| ==> elevators[k].emergencyStop && elevators[k].status == Emergency
    {
      hide CarReaches, CarInv;
      for k := 0 to |elevators|
        invariant Valid()
        invariant forall j :: 0 <= j < k ==> elevators[j].emergencyStop && elevators[j].status == Emergency
      {
        ActivateOne(elevators[k]);
      }
    }

    method ReleaseEmergencyStop()
      requires Valid()
      modifies Fleet()`emergencyStop, Fleet()`status, Fleet()`car
      ensures Valid()
      ensures forall k :: 0 <= k < |elevators| ==> !elevators[k].emergencyStop && elevators[k].status == Status.Idle
    {
      hide CarReaches, CarInv;
      for k := 0 to |elevators|
        invariant Valid()
        invariant forall j :: 0 <= j < k ==> !elevators[j].emergencyStop && elevators[j].status == Status.Idle
      {
        ReleaseOne(elevators[k]);
      }
    }

    method StopOne(elevator: Elevator)
      requires Valid() && elevator in elevators
      modifies elevator`running, elevator`car
      ensures Valid() && !elevator.running
    {
      elevator.Stop();
    }

    /** Up to the joins: a first call clears `running` everywhere, a second one does nothing. */
    method Stop()
      requires Valid()
      modifies `running, Fleet()`running, Fleet()`car
      ensures Valid() && !running
      ensures old(running) ==> forall k :: 0 <= k < |elevators| ==> !elevators[k].running
      ensures !old(running) ==> forall k :: 0 <= k < |elevators| ==> unchanged(elevators[k])
    {
      hide CarReaches, CarInv;
      if !running {
        return;
      }
      running := false;
      for k := 0 to |elevators|
        invariant Valid() && !running
        invariant forall j :: 0 <= j < k ==> !elevators[j].running
      {
        StopOne(elevators[k]);
      }
    }

    method GetElevatorStatuses() returns (statuses: seq<StatusEntry>)
      ensures |statuses| == |elevators|
      ensures forall k :: 0 <= k < |statuses| ==>
                && statuses[k].id == elevators[k].id && statuses[k].currentFloor == elevators[k].currentFloor
                && statuses[k].destFloor == elevators[k].destinationFloor
                && statuses[k].direction == elevators[k].direction && statuses[k].status == elevators[k].status
    {
      statuses := [];
      for i := 0 to |elevators|
        invariant |statuses| == i
        invariant forall k :: 0 <= k < i ==>
                    && statuses[k].id == elevators[k].id && statuses[k].currentFloor == elevators[k].currentFloor
                    && statuses[k].destFloor == elevators[k].destinationFloor
                    && statuses[k].direction == elevators[k].direction && statuses[k].status == elevators[k].status
      {
        var e := elevators[i];
        statuses := statuses + [StatusEntry(e.id, e.currentFloor, e.destinationFloor, e.direction, e.status)];
      }
    }

    // ----- One pass of `syncWithDatabase`, without interference -----

    /** Writes the row of every own elevator. */
    method WriteRows()
      requires Valid()
      modifies dbLogger
      ensures dbLogger.rows == Upserted(old(dbLogger.rows), EntriesOf(elevators))
      ensures Distinct(EntriesOf(elevators)) ==>
                forall k :: 0 <= k < |elevators| ==> Written(elevators[k], dbLogger.rows)
    {
      ghost var entries := EntriesOf(elevators);
      for k := 0 to |elevators|
        invariant EntriesOf(elevators) == entries
        invariant dbLogger.rows == Upserted(old(dbLogger.rows), entries[..k])
      {
        var elevator := elevators[k];
        dbLogger.SyncElevatorState(elevator.id, elevator.currentFloor, elevator.destinationFloor,
                                   DirectionCode(elevator.direction), StatusCode(elevator.status));
        assert entries[..k + 1][..k] == entries[..k];
      }
      assert entries[..|elevators|] == entries;
      if Distinct(entries) {
        forall k | 0 <= k < |elevators|
          ensures Written(elevators[k], dbLogger.rows)
        {
          WritePassShows(old(dbLogger.rows), entries, k);
        }
      }
    }

    /** The table has a row for the elevator that shows its fields. */
    ghost predicate Written(e: Elevator, rows: Table)
      reads e
    {
      e.id in rows && Shows(rows[e.id], e.currentFloor, e.destinationFloor, e.direction, e.status)
    }

    method HasElevator(id: int) returns (found: bool)
      ensures found <==> Has(EntriesOf(elevators), id)
    {
      found := false;
      for k := 0 to |elevators|
        invariant !found
        invariant forall j :: 0 <= j < k ==> elevators[j].id != id
      {
        if elevators[k].id == id {
          assert EntriesOf(elevators)[k].id == id;
          return true;
        }
      }
    }

    /** One row of the merge. */
    method AddIfMissing(state: Entry<Row>)
      requires Valid() && InRange(state.value.floor, numFloors)
      modifies this`elevators
      ensures Valid() && old(elevators) <= elevators && fresh(elevators[|old(elevators)|..])
      ensures EntriesOf(elevators) == AddMissing(old(EntriesOf(elevators)), [state])
    {
      hide CarReaches, CarInv;
      ghost var before := EntriesOf(elevators);
      var found := HasElevator(state.id);
      if !found {
        var newElevator := new Elevator(state.id, state.value.floor, numFloors);
        elevators := elevators + [newElevator];
        assert EntriesOf(elevators) == before + [Created(state)];
      }
    }

    /** The size test, then an elevator for every row whose id is missing. */
    method MergeStates(dbStates: seq<Entry<Row>>)
      requires Valid()
      requires forall k :: 0 <= k < |dbStates| ==> InRange(dbStates[k].value.floor, numFloors)
      modifies this`elevators
      ensures Valid() && old(elevators) <= elevators
      ensures EntriesOf(elevators) == Merge(old(EntriesOf(elevators)), dbStates)
      ensures NewAtRest(|old(elevators)|, dbStates)
    {
      hide CarReaches, CarInv, AtRestOn, StandsAsRead, StandsAt;
      if |dbStates| <= |elevators| {
        return;
      }
      ghost var entries := EntriesOf(elevators);
      for k := 0 to |dbStates|
        invariant Valid() && old(elevators) <= elevators
        invariant EntriesOf(elevators) == AddMissing(entries, dbStates[..k])
      {
        AddIfMissing(dbStates[k]);
        AddMissingUpTo(entries, dbStates, k);
      }
      assert dbStates[..|dbStates|] == dbStates;
      AddedStandAsRead(entries, dbStates);
      AddedAtRest(|old(elevators)|, dbStates);
    }

    lemma AddedAtRest(n: nat, states: seq<Entry<Row>>)
      requires Valid()
      requires forall k :: n <= k < |elevators| ==> StandsAsRead(EntriesOf(elevators)[k], states)
      ensures NewAtRest(n, states)
    {
      hide CarReaches, CarInv;
      forall k | n <= k < |elevators|
        ensures RestsAsRead(elevators[k], states)
      {
        assert StandsAsRead(EntriesOf(elevators)[k], states);
        var j :| 0 <= j < |states| && states[j].id == elevators[k].id
                 && StandsAt(elevators[k].car, states[j].value.floor);
        assert elevators[k].Valid() && AtRestOn(elevators[k], states[j].value.floor);
      }
    }

    /** The elevators from the `n`-th on are at rest where a row with their id was read. */
    ghost predicate NewAtRest(n: nat, states: seq<Entry<Row>>)
      reads this, elevators
    {
      forall k :: n <= k < |elevators| ==> RestsAsRead(elevators[k], states)
    }

    ghost predicate RestsAsRead(e: Elevator, states: seq<Entry<Row>>)
      reads e
    {
      exists j :: 0 <= j < |states| && states[j].id == e.id && AtRestOn(e, states[j].value.floor)
    }

    lemma NewAsInTable(n: nat)
      requires NewAtRest(n, Select(dbLogger.rows))
      ensures forall k :: n <= k < |elevators| ==>
                elevators[k].id in dbLogger.rows && AtRestOn(elevators[k], dbLogger.rows[elevators[k].id].floor)
    {
      SelectIsComplete(dbLogger.rows);
      var states := Select(dbLogger.rows);
      hide AtRestOn, Select;
      forall k | n <= k < |elevators|
        ensures elevators[k].id in dbLogger.rows && AtRestOn(elevators[k], dbLogger.rows[elevators[k].id].floor)
      {
        assert RestsAsRead(elevators[k], states);
        var j :| 0 <= j < |states| && states[j].id == elevators[k].id && AtRestOn(elevators[k], states[j].value.floor);
        assert states[j] in states;
      }
    }

    /** Idle on `floor`, in service, with nothing to do. */
    ghost predicate AtRestOn(e: Elevator, floor: int)
      reads e
    {
      && e.currentFloor == floor && e.destinationFloor == floor
      && e.direction == Direction.Idle && e.status == Status.Idle
      && !e.emergencyStop && e.running && e.requests == []
    }

    /** After one pass the controller has exactly the elevators of the table. */
    method SyncPass()
      requires Valid() && Distinct(EntriesOf(elevators))
      requires forall id :: id in dbLogger.rows ==> InRange(dbLogger.rows[id].floor, numFloors)
      modifies this`elevators, dbLogger
      ensures Valid() && old(elevators) <= elevators
      ensures dbLogger.rows == Upserted(old(dbLogger.rows), old(EntriesOf(elevators)))
      ensures EntriesOf(elevators) == Merge(old(EntriesOf(elevators)), Select(dbLogger.rows))
      ensures Distinct(EntriesOf(elevators)) && Ids(EntriesOf(elevators)) == dbLogger.rows.Keys
      ensures forall k :: 0 <= k < |old(elevators)| ==> Written(elevators[k], dbLogger.rows)
      ensures forall k :: |old(elevators)| <= k < |elevators| ==>
                elevators[k].id in dbLogger.rows && AtRestOn(elevators[k], dbLogger.rows[elevators[k].id].floor)
    {
      hide CarReaches, CarInv, Written, AtRestOn, NewAtRest, Merge, Upserted, Select, Distinct;
      ghost var entries, oldRows := EntriesOf(elevators), dbLogger.rows;
      WriteRows();
      var dbStates := dbLogger.GetElevatorStates();
      RowsOnFloors(oldRows, entries);
      MergeStates(dbStates);
      PassIsExact(oldRows, entries);
      NewAsInTable(|old(elevators)|);
    }

    lemma RowsOnFloors(t: Table, entries: seq<Entry<Car>>)
      requires Valid() && entries == EntriesOf(elevators) && Distinct(entries)
      requires forall id :: id in t ==> InRange(t[id].floor, numFloors)
      ensures forall e :: e in Select(Upserted(t, entries)) ==> InRange(e.value.floor, numFloors)
    {
      WritePassIsExact(t, entries);
      SelectIsComplete(Upserted(t, entries));
      forall k | 0 <= k < |elevators|
        ensures InRange(RowOf(entries[k].value).floor, numFloors)
      {
        ReachedCarOk(elevators[k].since, elevators[k].car, numFloors);
      }
    }
  }
}

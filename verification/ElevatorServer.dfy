/** The "go" branch of the network server. */
module ElevatorServers {
  import opened Domain
  import Dispatch
  import opened CarProtocol
  import opened Elevators
  import opened ElevatorControllers

  class ElevatorServer {
    const controller: ElevatorController

    constructor (c: ElevatorController)
      ensures controller == c
    {
      controller := c;
    }

    /** The search loop over the statuses read. */
    method Nearest(statuses: seq<StatusEntry>, floor: int, numFloors: nat, ghost views: seq<Dispatch.View>)
      returns (bestElevatorId: int, bestElevatorFloor: int)
      requires InRange(floor, numFloors) && numFloors <= INT_MAX && Dispatch.OnFloors(views, numFloors)
      requires |statuses| == |views| && forall k :: 0 <= k < |statuses| ==> Shows(statuses[k], views[k])
      ensures exists pick :: Dispatch.IsNearest(views, floor, pick)
                             && Names(views, pick, bestElevatorId, bestElevatorFloor)
    {
      bestElevatorId, bestElevatorFloor := -1, -1;
      ghost var pick: Option<nat> := None;
      var shortestDistance := INT_MAX;
      for k := 0 to |statuses|
        invariant Dispatch.IsNearest(views[..k], floor, pick)
        invariant Names(views, pick, bestElevatorId, bestElevatorFloor)
        invariant pick.None? ==> shortestDistance == INT_MAX
        invariant pick.Some? ==> pick.value < k && shortestDistance == Distance(bestElevatorFloor, floor)
      {
        var s := statuses[k];
        Dispatch.NearestExtends(views, k, floor, pick);
        assert Shows(s, views[k]) && InRange(views[k].floor, numFloors);
        if s.status == Status.Idle || s.status == Stopped {
          var distance := if s.currentFloor < floor then floor - s.currentFloor else s.currentFloor - floor;
          if distance < shortestDistance {
            shortestDistance, bestElevatorId, bestElevatorFloor := distance, s.id, s.currentFloor;
            pick := Some(k);
          }
        }
      }
      assert views[..|statuses|] == views;
      assert Dispatch.IsNearest(views, floor, pick);
    }

    /** The id and the floor of the elevator picked, or -1. */
    ghost predicate Names(views: seq<Dispatch.View>, pick: Option<nat>, id: int, floor: int) {
      match pick
      case None => id == -1
      case Some(p) => p < |views| && id == views[p].id && floor == views[p].floor
    }

    ghost predicate Shows(s: StatusEntry, v: Dispatch.View) {
      s.id == v.id && s.currentFloor == v.floor && s.status == v.status
    }

    /** Index `pick` is the first of the nearest elevators that show IDLE or STOPPED, if any does. */
    ghost predicate IsNearestWaiting(floor: int, pick: Option<nat>)
      reads this, controller, controller.elevators
    {
      var waiting := set k | 0 <= k < |controller.elevators|
                             && controller.elevators[k].status in {Status.Idle, Stopped};
      match pick
      case None => waiting == {}
      case Some(p) =>
        && p in waiting
        && forall k :: k in waiting ==>
             var d, best := Distance(controller.elevators[k].currentFloor, floor),
                            Distance(controller.elevators[p].currentFloor, floor);
             best <= d && (k < p ==> best < d)
    }

    /**
     Looks for the nearest idle or stopped elevator and, if it finds one, queues
     a request from that elevator's floor. Returns the announced id, or -1.
     */
    method Go(floor: int) returns (bestElevatorId: int, ghost pick: Option<nat>)
      requires controller.Valid()
      modifies controller`pendingRequests
      ensures controller.Valid()
      ensures floor < 1 || floor > controller.numFloors
              ==> pick == None && bestElevatorId == -1 && controller.pendingRequests == old(controller.pendingRequests)
      ensures 1 <= floor <= controller.numFloors ==>
                && Dispatch.IsNearest(ViewsOf(controller.elevators), floor, pick)
                && bestElevatorId == (if pick.Some? then controller.elevators[pick.value].id else -1)
      ensures 1 <= floor <= controller.numFloors ==> IsNearestWaiting(floor, pick)
      ensures pick.Some? && bestElevatorId >= 0 ==>
                var from := controller.elevators[pick.value].currentFloor;
                controller.pendingRequests
                == old(controller.pendingRequests) + [Request(from, floor, if floor > from then Up else Down)]
      ensures bestElevatorId < 0 ==> controller.pendingRequests == old(controller.pendingRequests)
    {
      hide CarReaches, CarInv;
      bestElevatorId, pick := -1, None;
      if floor < 1 || floor > controller.numFloors {
        return;
      }
      var statuses := controller.GetElevatorStatuses();
      ghost var views := ViewsOf(controller.elevators);
      controller.OnFloors();
      var bestElevatorFloor;
      bestElevatorId, bestElevatorFloor := Nearest(statuses, floor, controller.numFloors, views);
      pick :| Dispatch.IsNearest(views, floor, pick) && Names(views, pick, bestElevatorId, bestElevatorFloor);
      if bestElevatorId >= 0 {
        controller.AddRequest(bestElevatorFloor, floor, if floor > bestElevatorFloor then Up else Down);
      }
    }

    /**
     With nothing else pending and no change in between, the elevator announced
     by "go" is the one the dispatcher sends exactly when it is announceable.
     */
    method GoThenDispatch(floor: int) returns (ghost pick: Option<nat>, ghost chosen: Option<nat>)
      requires controller.Valid() && controller.MutexesFree() && controller.pendingRequests == []
      requires Dispatch.Fits(controller.numFloors)
      requires InRange(floor, controller.numFloors)
      requires forall k :: 0 <= k < |controller.elevators| ==> controller.elevators[k].id >= 0
      modifies controller`pendingRequests, controller.Fleet()`requests, controller.Fleet()`car
      ensures pick.None? ==> chosen == None
      ensures pick.Some? ==> pick.value < |controller.elevators|
      ensures pick.Some? ==> (chosen == pick <==> Dispatch.Announceable(old(ViewsOf(controller.elevators)), pick.value))
    {
      hide CarReaches, CarInv;
      ghost var views := ViewsOf(controller.elevators);
      var announced;
      announced, pick := Go(floor);
      controller.OnFloors();
      if pick.Some? {
        assert InRange(views[pick.value].floor, controller.numFloors);
      }
      chosen := controller.DispatchNext();
      if pick.Some? {
        Dispatch.GoAgreesWithDispatcher(views, floor, pick.value, chosen);
      }
    }
  }
}

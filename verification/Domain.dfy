/** Values shared by every part of the model (include/Elevator.h). */
module Domain {

  datatype Option<+T> = None | Some(value: T)

  datatype Direction = Idle | Up | Down

  datatype Status = Idle | Moving | Stopped | Emergency

  /** A hall call or a trip. `toFloor == 0` marks a call without a destination. */
  datatype Request = Request(fromFloor: int, toFloor: int, direction: Direction)

  /** `std::numeric_limits<int>::max()`. */
  const INT_MAX: int := 0x7fff_ffff

  function Distance(a: int, b: int): nat {
    if a < b then b - a else a - b
  }

  predicate InRange(floor: int, numFloors: int) {
    1 <= floor <= numFloors
  }

  /** What `ElevatorController::addRequest` accepts. */
  predicate ValidRequest(r: Request, numFloors: int) {
    InRange(r.fromFloor, numFloors) && (r.toFloor == 0 || InRange(r.toFloor, numFloors))
  }

  function Toward(floor: int, target: int): Direction {
    if target > floor then Up else Down
  }
}

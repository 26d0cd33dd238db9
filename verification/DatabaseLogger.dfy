/** The shared `elevators` table: keyed upsert and ordered read. */
module DatabaseLoggers {
  import opened Domain
  import opened CarProtocol
  import opened SyncProtocol

  /** The casts back; a code no enumerator has is left undecoded. */
  function DirectionOf(code: int): Option<Direction> {
    if code == 0 then Some(Direction.Idle) else if code == 1 then Some(Up) else if code == 2 then Some(Down) else None
  }

  function StatusOf(code: int): Option<Status> {
    if code == 0 then Some(Status.Idle) else if code == 1 then Some(Moving)
    else if code == 2 then Some(Stopped) else if code == 3 then Some(Emergency) else None
  }

  class DatabaseLogger {
    var rows: Table

    constructor ()
      ensures rows == map[]
    {
      rows := map[];
    }

    /** INSERT ... ON CONFLICT (id) DO UPDATE. */
    method SyncElevatorState(id: int, currentFloor: int, destFloor: int, direction: int, status: int)
      modifies this
      ensures rows == old(rows)[id := Row(currentFloor, destFloor, direction, status)]
    {
      rows := rows[id := Row(currentFloor, destFloor, direction, status)];
    }

    /** SELECT ... ORDER BY id, row by row. */
    method GetElevatorStates() returns (states: seq<Entry<Row>>)
      ensures states == Select(rows)
    {
      states := [];
      var left := rows.Keys;
      while left != {}
        invariant left <= rows.Keys
        invariant states + RowsOf(rows, left) == Select(rows)
        decreases |left|
      {
        LeastExists(left);
        var id :| id in left && forall other :: other in left ==> id <= other;
        states := states + [Entry(id, rows[id])];
        left := left - {id};
      }
    }
  }

  /** The row shows floor, destination, direction and status, the latter two by their numbers. */
  predicate Shows(row: Row, floor: int, dest: int, d: Direction, s: Status) {
    && row.floor == floor && row.dest == dest
    && DirectionOf(row.direction) == Some(d) && StatusOf(row.status) == Some(s)
    && (row.direction == 0 <==> d.Idle?) && (row.direction == 1 <==> d.Up?) && (row.direction == 2 <==> d.Down?)
    && (row.status == 0 <==> s.Idle?) && (row.status == 1 <==> s.Moving?)
    && (row.status == 2 <==> s.Stopped?) && (row.status == 3 <==> s.Emergency?)
  }

  lemma RowShows(c: Car)
    ensures Shows(RowOf(c), c.floor, c.dest, c.direction, c.status)
  {
  }

  /** After a write pass the table shows every elevator as it is, column by column, and so does the next read. */
  lemma WritePassShows(t: Table, es: seq<Entry<Car>>, k: nat)
    requires Distinct(es) && k < |es|
    ensures var t', c := Upserted(t, es), es[k].value;
            && es[k].id in t' && Shows(t'[es[k].id], c.floor, c.dest, c.direction, c.status)
            && Entry(es[k].id, t'[es[k].id]) in Select(t')
  {
    var t' := Upserted(t, es);
    WritePassIsExact(t, es);
    SelectIsComplete(t');
    RowShows(es[k].value);
    hide Shows, RowOf, Upserted, Select, Distinct, Ascending;
    assert es[k].id in Ids(Select(t'));
    var j :| 0 <= j < |Select(t')| && Select(t')[j].id == es[k].id;
    assert Select(t')[j] in Select(t');
  }

  /** What one instance writes is what every instance reads. */
  lemma WrittenStateIsRead(t: Table, id: int, floor: int, dest: int, d: Direction, s: Status)
    ensures var states := Select(t[id := Row(floor, dest, DirectionCode(d), StatusCode(s))]);
            exists e :: e in states && e.id == id && e.value.floor == floor && e.value.dest == dest
                        && DirectionOf(e.value.direction) == Some(d) && StatusOf(e.value.status) == Some(s)
  {
    var t' := t[id := Row(floor, dest, DirectionCode(d), StatusCode(s))];
    SelectIsComplete(t');
    assert id in Ids(Select(t'));
    var k :| 0 <= k < |Select(t')| && Select(t')[k].id == id;
    assert Select(t')[k] in Select(t');
  }
}

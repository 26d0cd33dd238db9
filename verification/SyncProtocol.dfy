/**
 Several simulator instances sharing one table of elevators: each instance
 writes its own rows, reads the table, and adds the elevators it lacks
 (`syncWithDatabase`). Instances interleave one table access at a time, while
 all their elevators go on by the elevator protocol.
 */
module SyncProtocol {
  import opened Domain
  import opened CarProtocol

  /** One row of the `elevators` table, without its key. */
  datatype Row = Row(floor: int, dest: int, direction: int, status: int)

  /** A row or an elevator with its id: what a read returns, and what an instance's list holds. */
  datatype Entry<+T> = Entry(id: int, value: T)

  /** `static_cast<int>` of the enumerations, in declaration order. */
  function DirectionCode(d: Direction): int {
    match d case Idle => 0 case Up => 1 case Down => 2
  }

  function StatusCode(s: Status): int {
    match s case Idle => 0 case Moving => 1 case Stopped => 2 case Emergency => 3
  }

  /** What an elevator writes. */
  function RowOf(c: Car): Row {
    Row(c.floor, c.dest, DirectionCode(c.direction), StatusCode(c.status))
  }

  type Table = map<int, Row>

  ghost function Ids<T>(es: seq<Entry<T>>): set<int> {
    set k | 0 <= k < |es| :: es[k].id
  }

  ghost predicate Distinct<T>(es: seq<Entry<T>>) {
    forall i, j :: 0 <= i < j < |es| ==> es[i].id != es[j].id
  }

  predicate Has<T>(es: seq<Entry<T>>, id: int) {
    exists k :: 0 <= k < |es| && es[k].id == id
  }

  /** An elevator created from a row and started: at the row's floor, idle. */
  function Created(e: Entry<Row>): Entry<Car> {
    Entry(e.id, Fresh(e.value.floor))
  }

  function AddMissing(es: seq<Entry<Car>>, states: seq<Entry<Row>>): seq<Entry<Car>>
    decreases |states|
  {
    if states == [] then es
    else AddMissing(if Has(es, states[0].id) then es else es + [Created(states[0])], states[1..])
  }

  /** The size test, then the merge. */
  function Merge(es: seq<Entry<Car>>, states: seq<Entry<Row>>): seq<Entry<Car>> {
    if |states| > |es| then AddMissing(es, states) else es
  }

  // ----- The size test and the merge -----

  lemma {:induction false} DistinctCount<T>(es: seq<Entry<T>>)
    requires Distinct(es)
    ensures |Ids(es)| == |es|
  {
    if es != [] {
      var n := |es| - 1;
      DistinctCount(es[..n]);
      IdsOfInit(es);
    }
  }

  lemma SubsetOfSameSize(a: set<int>, b: set<int>)
    requires a <= b
    ensures |a| <= |b|
    ensures |a| == |b| ==> a == b
  {
    assert b == a + (b - a) && |b| == |a| + |b - a|;
  }

  /** After an instance's own upserts, the table is larger exactly when it has an id the instance lacks. */
  lemma SizeTestIsExact(es: seq<Entry<Car>>, states: seq<Entry<Row>>)
    requires Distinct(es) && Distinct(states) && Ids(es) <= Ids(states)
    ensures |states| > |es| <==> exists id :: id in Ids(states) && id !in Ids(es)
  {
    DistinctCount(es);
    DistinctCount(states);
    SubsetOfSameSize(Ids(es), Ids(states));
    if |states| > |es| && Ids(states) <= Ids(es) {
      SubsetOfSameSize(Ids(states), Ids(es));
      assert false;
    }
  }

  lemma {:induction false} AddMissingAddsAll(es: seq<Entry<Car>>, states: seq<Entry<Row>>)
    requires Distinct(es)
    ensures es <= AddMissing(es, states)
    ensures Distinct(AddMissing(es, states))
    ensures Ids(AddMissing(es, states)) == Ids(es) + Ids(states)
    decreases |states|
  {
    if states != [] {
      var es' := if Has(es, states[0].id) then es else es + [Created(states[0])];
      AddOne(es, states[0]);
      AddMissingAddsAll(es', states[1..]);
      assert Ids(states) == {states[0].id} + Ids(states[1..]) by { IdsOfTail(states); }
    }
  }

  lemma {:induction false} AddMissingExtends(es: seq<Entry<Car>>, states: seq<Entry<Row>>, e: Entry<Row>)
    ensures AddMissing(es, states + [e]) == AddMissing(AddMissing(es, states), [e])
    decreases |states|
  {
    if states == [] {
      assert states + [e] == [e];
    } else {
      assert (states + [e])[1..] == states[1..] + [e];
      AddMissingExtends(if Has(es, states[0].id) then es else es + [Created(states[0])], states[1..], e);
    }
  }

  /** An elevator at rest on the floor that a row with its id gives. */
  ghost predicate StandsAsRead(e: Entry<Car>, states: seq<Entry<Row>>) {
    exists j :: 0 <= j < |states| && states[j].id == e.id && StandsAt(e.value, states[j].value.floor)
  }

  predicate StandsAt(c: Car, floor: int) {
    && c.floor == floor && c.dest == floor && c.direction.Idle? && c.status.Idle?
    && !c.flag && c.running && c.queue == [] && InHand(c.pc) == []
  }

  lemma {:induction false} AddedStandAsRead(es: seq<Entry<Car>>, states: seq<Entry<Row>>)
    ensures |es| <= |AddMissing(es, states)|
    ensures forall k :: |es| <= k < |AddMissing(es, states)| ==> StandsAsRead(AddMissing(es, states)[k], states)
    decreases |states|
  {
    if states != [] {
      var es' := if Has(es, states[0].id) then es else es + [Created(states[0])];
      AddedStandAsRead(es', states[1..]);
      AddMissingKeepsFront(es', states[1..]);
      forall k | |es| <= k < |AddMissing(es, states)|
        ensures StandsAsRead(AddMissing(es, states)[k], states)
      {
        if k < |es'| {
          assert states[0].id == es'[k].id && StandsAt(es'[k].value, states[0].value.floor);
        } else {
          RowsBelong(AddMissing(es, states)[k], states);
        }
      }
    }
  }

  lemma RowsBelong(e: Entry<Car>, states: seq<Entry<Row>>)
    requires states != [] && StandsAsRead(e, states[1..])
    ensures StandsAsRead(e, states)
  {
    var j :| 0 <= j < |states[1..]| && states[1..][j].id == e.id && StandsAt(e.value, states[1..][j].value.floor);
    assert states[j + 1].id == e.id;
  }

  lemma {:induction false} AddMissingKeepsFront(es: seq<Entry<Car>>, states: seq<Entry<Row>>)
    ensures es <= AddMissing(es, states)
    decreases |states|
  {
    if states != [] {
      AddMissingKeepsFront(if Has(es, states[0].id) then es else es + [Created(states[0])], states[1..]);
    }
  }

  lemma AddMissingUpTo(es: seq<Entry<Car>>, states: seq<Entry<Row>>, k: nat)
    requires k < |states|
    ensures AddMissing(es, states[..k + 1]) == AddMissing(AddMissing(es, states[..k]), [states[k]])
  {
    assert states[..k] + [states[k]] == states[..k + 1];
    AddMissingExtends(es, states[..k], states[k]);
  }

  lemma AddOne(es: seq<Entry<Car>>, e: Entry<Row>)
    requires Distinct(es)
    ensures var es' := if Has(es, e.id) then es else es + [Created(e)];
            es <= es' && Distinct(es') && Ids(es') == Ids(es) + {e.id}
  {
    if !Has(es, e.id) {
      var es' := es + [Created(e)];
      assert es'[|es|].id == e.id;
      assert forall k :: 0 <= k < |es| ==> es'[k] == es[k];
      assert forall id :: id in Ids(es) ==> id in Ids(es') by {
        forall id | id in Ids(es)
          ensures id in Ids(es')
        {
          var k :| 0 <= k < |es| && es[k].id == id;
          assert es'[k].id == id;
        }
      }
    }
  }

  lemma IdsOfTail<T>(es: seq<Entry<T>>)
    requires es != []
    ensures Ids(es) == {es[0].id} + Ids(es[1..])
  {
  }

  /**
   The merge brings the id set up to the table's and nothing more, with every new
   elevator at rest where its row has it; a second merge changes nothing.
   */
  lemma MergeIsExact(es: seq<Entry<Car>>, states: seq<Entry<Row>>)
    requires Distinct(es) && Distinct(states) && Ids(es) <= Ids(states)
    ensures es <= Merge(es, states)
    ensures Distinct(Merge(es, states))
    ensures Ids(Merge(es, states)) == Ids(states)
    ensures forall k :: |es| <= k < |Merge(es, states)| ==> StandsAsRead(Merge(es, states)[k], states)
    ensures Merge(Merge(es, states), states) == Merge(es, states)
  {
    SizeTestIsExact(es, states);
    AddedStandAsRead(es, states);
    AddMissingAddsAll(es, states);
    assert Ids(Merge(es, states)) == Ids(states);
    SizeTestIsExact(Merge(es, states), states);
  }

  /** Without the instance's own upserts the size test can miss an elevator. */
  lemma SizeTestNeedsOwnRows()
    ensures exists es: seq<Entry<Car>>, states: seq<Entry<Row>> ::
              Distinct(es) && Distinct(states) && (exists id :: id in Ids(states) && id !in Ids(es))
              && Merge(es, states) == es
  {
    var es, states := [Entry(0, Fresh(1))], [Entry(1, Row(1, 1, 0, 0))];
    assert states[0].id in Ids(states) && 1 !in Ids(es);
    assert Merge(es, states) == es;
  }

  // ----- The table -----

  lemma Pick<T>(s: set<T>) returns (x: T)
    requires s != {}
    ensures x in s
  {
    x :| x in s;
  }

  lemma {:induction false} LeastExists(s: set<int>)
    requires s != {}
    ensures exists m :: m in s && forall x :: x in s ==> m <= x
  {
    var y := Pick(s);
    var rest := s - {y};
    assert forall x :: x in s ==> x == y || x in rest;
    if rest == {} {
      assert forall x :: x in s ==> y <= x;
    } else {
      LeastExists(rest);
      var m :| m in rest && forall x :: x in rest ==> m <= x;
      var least := if y < m then y else m;
      assert least in s && forall x :: x in s ==> least <= x;
    }
  }

  ghost function Least(s: set<int>): (m: int)
    requires s != {}
    ensures m in s && forall x :: x in s ==> m <= x
  {
    LeastExists(s);
    var m :| m in s && forall x :: x in s ==> m <= x;
    m
  }

  /** The rows with the given keys, ORDER BY id. */
  ghost function RowsOf(t: Table, keys: set<int>): seq<Entry<Row>>
    requires keys <= t.Keys
  {
    if keys == {} then []
    else
      var m := Least(keys);
      [Entry(m, t[m])] + RowsOf(t, keys - {m})
  }

  /** What a read returns. */
  ghost function Select(t: Table): seq<Entry<Row>> {
    RowsOf(t, t.Keys)
  }

  ghost predicate Ascending<T>(es: seq<Entry<T>>) {
    forall i, j :: 0 <= i < j < |es| ==> es[i].id < es[j].id
  }

  lemma {:induction false} RowsAreOrdered(t: Table, keys: set<int>)
    requires keys <= t.Keys
    ensures Ids(RowsOf(t, keys)) == keys && Ascending(RowsOf(t, keys))
    ensures forall e :: e in RowsOf(t, keys) ==> e.id in t && e.value == t[e.id]
  {
    if keys != {} {
      var m := Least(keys);
      var tail := RowsOf(t, keys - {m});
      RowsAreOrdered(t, keys - {m});
      LeadAscends(Entry(m, t[m]), tail);
    }
  }

  lemma LeadAscends<T>(e: Entry<T>, tail: seq<Entry<T>>)
    requires Ascending(tail) && forall id :: id in Ids(tail) ==> e.id < id
    ensures Ascending([e] + tail) && Ids([e] + tail) == {e.id} + Ids(tail)
  {
    var es := [e] + tail;
    IdsOfTail(es);
    assert es[1..] == tail;
    forall i, j | 0 <= i < j < |es|
      ensures es[i].id < es[j].id
    {
      assert es[j] == tail[j - 1] && tail[j - 1].id in Ids(tail);
    }
  }

  /** A read returns every row once, in ascending order. */
  lemma SelectIsComplete(t: Table)
    ensures Ids(Select(t)) == t.Keys && Ascending(Select(t)) && Distinct(Select(t))
    ensures forall e :: e in Select(t) ==> e.id in t && e.value == t[e.id]
  {
    RowsAreOrdered(t, t.Keys);
  }

  /** The table after an undisturbed write pass over `es`. */
  function Upserted(t: Table, es: seq<Entry<Car>>): Table {
    if es == [] then t
    else Upserted(t, es[..|es| - 1])[es[|es| - 1].id := RowOf(es[|es| - 1].value)]
  }

  ghost predicate Written(t: Table, es: seq<Entry<Car>>) {
    forall k :: 0 <= k < |es| ==> es[k].id in t && t[es[k].id] == RowOf(es[k].value)
  }

  /** It holds every written elevator with its own state, and leaves all other rows alone. */
  lemma {:induction false} WritePassIsExact(t: Table, es: seq<Entry<Car>>)
    requires Distinct(es)
    ensures Upserted(t, es).Keys == t.Keys + Ids(es)
    ensures Written(Upserted(t, es), es)
    ensures forall id :: id in t && id !in Ids(es) ==> Upserted(t, es)[id] == t[id]
    decreases |es|
  {
    if es != [] {
      var n := |es| - 1;
      WritePassIsExact(t, es[..n]);
      IdsOfInit(es);
      UpsertIsExact(Upserted(t, es[..n]), es);
    }
  }

  lemma UpsertIsExact(t: Table, es: seq<Entry<Car>>)
    requires es != [] && Distinct(es) && Written(t, es[..|es| - 1])
    ensures Written(t[es[|es| - 1].id := RowOf(es[|es| - 1].value)], es)
  {
    var n := |es| - 1;
    assert forall k :: 0 <= k < n ==> es[..n][k] == es[k] && es[k].id != es[n].id;
  }

  lemma IdsOfInit<T>(es: seq<Entry<T>>)
    requires es != []
    ensures Ids(es) == Ids(es[..|es| - 1]) + {es[|es| - 1].id}
  {
  }

  // ----- Interleaved instances -----

  datatype SyncPc =
    | Writing(k: nat)                    // about to upsert the k-th own elevator
    | Reading
    | Merging(states: seq<Entry<Row>>)        // the table has been read

  /** `writePasses` counts finished upsert loops. */
  datatype Instance = Instance(elevators: seq<Entry<Car>>, pc: SyncPc, writePasses: nat)

  datatype World = World(numFloors: int, table: Table, instances: seq<Instance>)

  datatype SyncAction =
    | Upsert(i: nat)                     // syncElevatorState for one row, or the end of that loop
    | Read(i: nat)                       // getElevatorStates
    | Reconcile(i: nat)                  // the size test and the merge
    | Drive(i: nat, k: nat, act: CarAction)   // anything that can happen to the k-th elevator meanwhile

  ghost predicate SyncEnabled(w: World, a: SyncAction) {
    a.i < |w.instances| &&
    match a
    case Upsert(i) => w.instances[i].pc.Writing?
    case Read(i) => w.instances[i].pc.Reading?
    case Reconcile(i) => w.instances[i].pc.Merging?
    case Drive(i, k, act) =>
      k < |w.instances[i].elevators| && CarEnabled(w.instances[i].elevators[k].value, act, w.numFloors)
  }

  ghost function InstanceNext(w: World, a: SyncAction): Instance
    requires SyncEnabled(w, a)
  {
    var p := w.instances[a.i];
    match a
    case Upsert(_) =>
      if p.pc.k < |p.elevators| then p.(pc := Writing(p.pc.k + 1))
      else p.(pc := Reading, writePasses := p.writePasses + 1)
    case Read(_) => p.(pc := Merging(Select(w.table)))
    case Reconcile(_) => p.(elevators := Merge(p.elevators, p.pc.states), pc := Writing(0))
    case Drive(_, k, act) =>
      p.(elevators := p.elevators[k := Entry(p.elevators[k].id, CarNext(p.elevators[k].value, act))])
  }

  ghost function TableNext(w: World, a: SyncAction): Table
    requires SyncEnabled(w, a)
  {
    var p := w.instances[a.i];
    if a.Upsert? && p.pc.k < |p.elevators|
    then w.table[p.elevators[p.pc.k].id := RowOf(p.elevators[p.pc.k].value)]
    else w.table
  }

  ghost function SyncNext(w: World, a: SyncAction): World
    requires SyncEnabled(w, a)
  {
    World(w.numFloors, TableNext(w, a), w.instances[a.i := InstanceNext(w, a)])
  }

  ghost predicate SyncFeasible(w: World, run: seq<SyncAction>)
    decreases |run|
  {
    run == [] || (SyncEnabled(w, run[0]) && SyncFeasible(SyncNext(w, run[0]), run[1..]))
  }

  ghost function SyncRun(w: World, run: seq<SyncAction>): World
    requires SyncFeasible(w, run)
    decreases |run|
  {
    if run == [] then w else SyncRun(SyncNext(w, run[0]), run[1..])
  }
}

/** Interleaved instances agree on the set of elevators, keep floors in range, and keep lists in id order. */
module Convergence {
  import opened Domain
  import Dispatch
  import opened CarProtocol
  import opened SyncProtocol

  /** The ids a run starts from: those in the table and those of each instance. */
  datatype Origin = Origin(rows: set<int>, own: seq<set<int>>)

  ghost function Universe(o: Origin): set<int> {
    o.rows + set i, id | 0 <= i < |o.own| && id in o.own[i] :: id
  }

  ghost predicate Starts(w: World, o: Origin) {
    && w.table.Keys == o.rows
    && |o.own| == |w.instances|
    && forall i :: 0 <= i < |w.instances| ==>
         && w.instances[i].pc == Writing(0) && w.instances[i].writePasses == 0
         && Distinct(w.instances[i].elevators) && Ids(w.instances[i].elevators) == o.own[i]
  }

  ghost predicate SyncPcOk(p: Instance, keys: set<int>) {
    match p.pc
    case Writing(k) => k <= |p.elevators| && forall j :: 0 <= j < k ==> p.elevators[j].id in keys
    case Reading => Ids(p.elevators) <= keys
    case Merging(states) => Distinct(states) && Ids(p.elevators) <= Ids(states) <= keys
  }

  ghost predicate InstanceOk(p: Instance, keys: set<int>, own: set<int>, universe: set<int>) {
    && Distinct(p.elevators)
    && own <= Ids(p.elevators) <= universe
    && SyncPcOk(p, keys)
    && (p.writePasses > 0 ==> own <= keys)
  }

  ghost predicate WorldOk(w: World, o: Origin) {
    && o.rows <= w.table.Keys <= Universe(o)
    && |o.own| == |w.instances|
    && forall i :: 0 <= i < |w.instances| ==>
         InstanceOk(w.instances[i], w.table.Keys, o.own[i], Universe(o))
  }

  lemma StartIsOk(w: World, o: Origin)
    requires Starts(w, o)
    ensures WorldOk(w, o)
  {
  }

  lemma MoreRowsAreOk(p: Instance, keys: set<int>, keys': set<int>, own: set<int>, universe: set<int>)
    requires InstanceOk(p, keys, own, universe) && keys <= keys'
    ensures InstanceOk(p, keys', own, universe)
  {
  }

  lemma IdsOfUpdate<T>(es: seq<Entry<T>>, k: nat, x: T)
    requires k < |es|
    ensures Ids(es[k := Entry(es[k].id, x)]) == Ids(es)
    ensures Distinct(es) ==> Distinct(es[k := Entry(es[k].id, x)])
  {
    var es' := es[k := Entry(es[k].id, x)];
    assert forall j :: 0 <= j < |es| ==> es'[j].id == es[j].id;
    forall id
      ensures id in Ids(es') <==> id in Ids(es)
    {
      if id in Ids(es') {
        var j :| 0 <= j < |es'| && es'[j].id == id;
        assert es[j].id == id;
      }
      if id in Ids(es) {
        var j :| 0 <= j < |es| && es[j].id == id;
        assert es'[j].id == id;
      }
    }
  }

  lemma UpsertKeepsOk(w: World, i: nat, own: set<int>, universe: set<int>)
    requires SyncEnabled(w, Upsert(i))
    requires InstanceOk(w.instances[i], w.table.Keys, own, universe)
    ensures InstanceOk(InstanceNext(w, Upsert(i)), TableNext(w, Upsert(i)).Keys, own, universe)
    ensures w.table.Keys <= TableNext(w, Upsert(i)).Keys <= w.table.Keys + universe
  {
  }

  lemma OthersKeepOk(w: World, a: SyncAction, own: set<int>, universe: set<int>)
    requires SyncEnabled(w, a) && !a.Upsert?
    requires InstanceOk(w.instances[a.i], w.table.Keys, own, universe) && w.table.Keys <= universe
    ensures InstanceOk(InstanceNext(w, a), w.table.Keys, own, universe)
  {
    var p := w.instances[a.i];
    match a
    case Read(_) => SelectIsComplete(w.table);
    case Reconcile(_) => MergeIsExact(p.elevators, p.pc.states);
    case Drive(_, k, act) => IdsOfUpdate(p.elevators, k, CarNext(p.elevators[k].value, act));
  }

  lemma SyncNextKeepsOk(w: World, a: SyncAction, o: Origin)
    requires WorldOk(w, o) && SyncEnabled(w, a)
    ensures WorldOk(SyncNext(w, a), o)
    ensures w.table.Keys <= SyncNext(w, a).table.Keys
  {
    var w' := SyncNext(w, a);
    if a.Upsert? {
      UpsertKeepsOk(w, a.i, o.own[a.i], Universe(o));
    } else {
      OthersKeepOk(w, a, o.own[a.i], Universe(o));
    }
    forall i | 0 <= i < |w.instances|
      ensures InstanceOk(w'.instances[i], w'.table.Keys, o.own[i], Universe(o))
    {
      if i != a.i {
        MoreRowsAreOk(w.instances[i], w.table.Keys, w'.table.Keys, o.own[i], Universe(o));
      }
    }
  }

  lemma {:induction false} SyncRunKeepsOk(w: World, run: seq<SyncAction>, o: Origin)
    requires WorldOk(w, o) && SyncFeasible(w, run)
    ensures WorldOk(SyncRun(w, run), o)
    decreases |run|
  {
    if run != [] {
      SyncNextKeepsOk(w, run[0], o);
      SyncRunKeepsOk(SyncNext(w, run[0]), run[1..], o);
    }
  }

  // ----- Convergence -----

  /** Every instance has finished writing its own elevators at least once. */
  ghost predicate AllWritten(w: World) {
    forall i :: 0 <= i < |w.instances| ==> w.instances[i].writePasses > 0
  }

  lemma TableIsComplete(w: World, o: Origin)
    requires WorldOk(w, o) && AllWritten(w)
    ensures w.table.Keys == Universe(o)
  {
  }

  /** From here on instance `i` can only read the complete table. */
  ghost predicate ReadsAll(p: Instance, universe: set<int>) {
    p.pc.Merging? ==> Ids(p.pc.states) == universe
  }

  function Reconciles(run: seq<SyncAction>, i: nat): nat {
    if run == [] then 0 else (if run[0] == Reconcile(i) then 1 else 0) + Reconciles(run[1..], i)
  }

  lemma SettledStep(w: World, a: SyncAction, o: Origin, i: nat)
    requires WorldOk(w, o) && AllWritten(w) && SyncEnabled(w, a) && i < |w.instances|
    requires ReadsAll(w.instances[i], Universe(o))
    ensures AllWritten(SyncNext(w, a)) && ReadsAll(SyncNext(w, a).instances[i], Universe(o))
    ensures a == Reconcile(i) || Ids(w.instances[i].elevators) == Universe(o)
            ==> Ids(SyncNext(w, a).instances[i].elevators) == Universe(o)
  {
    TableIsComplete(w, o);
    var p := w.instances[i];
    assert InstanceOk(p, w.table.Keys, o.own[i], Universe(o));
    if a.i == i {
      match a
      case Upsert(_) =>
      case Read(_) => SelectIsComplete(w.table);
      case Reconcile(_) => MergeIsExact(p.elevators, p.pc.states);
      case Drive(_, k, act) => IdsOfUpdate(p.elevators, k, CarNext(p.elevators[k].value, act));
    }
  }

  lemma {:induction false} SettledRun(w: World, run: seq<SyncAction>, o: Origin, i: nat)
    requires WorldOk(w, o) && AllWritten(w) && SyncFeasible(w, run) && i < |w.instances|
    requires ReadsAll(w.instances[i], Universe(o))
    ensures i < |SyncRun(w, run).instances|
    ensures Reconciles(run, i) > 0 || Ids(w.instances[i].elevators) == Universe(o)
            ==> Ids(SyncRun(w, run).instances[i].elevators) == Universe(o)
    decreases |run|
  {
    if run != [] {
      SyncNextKeepsOk(w, run[0], o);
      SettledStep(w, run[0], o, i);
      SettledRun(SyncNext(w, run[0]), run[1..], o, i);
    }
  }

  /**
   Once every instance has finished a write pass, the next full pass of each
   instance - whatever the others do meanwhile - gives it exactly the union of
   all ids, and nothing after that changes it.
   */
  lemma InstancesConverge(w0: World, before: seq<SyncAction>, w: World, after: seq<SyncAction>, o: Origin, i: nat)
    requires Starts(w0, o) && SyncFeasible(w0, before) && w == SyncRun(w0, before)
    requires AllWritten(w) && i < |w.instances| && !w.instances[i].pc.Merging?
    requires SyncFeasible(w, after) && Reconciles(after, i) > 0
    ensures i < |SyncRun(w, after).instances|
    ensures Ids(SyncRun(w, after).instances[i].elevators) == Universe(o)
    ensures Distinct(SyncRun(w, after).instances[i].elevators)
  {
    StartIsOk(w0, o);
    SyncRunKeepsOk(w0, before, o);
    SettledRun(w, after, o, i);
    SyncRunKeepsOk(w, after, o);
  }

  // ----- Position safety, all instances together -----

  ghost predicate RowsOnFloors(t: Table, numFloors: int) {
    forall id :: id in t ==> InRange(t[id].floor, numFloors) && InRange(t[id].dest, numFloors)
  }

  ghost predicate StatesOnFloors(states: seq<Entry<Row>>, numFloors: int) {
    forall k :: 0 <= k < |states| ==> InRange(states[k].value.floor, numFloors)
  }

  ghost predicate CarsSound(es: seq<Entry<Car>>, numFloors: int) {
    forall k :: 0 <= k < |es| ==> CarInv(es[k].value, numFloors)
  }

  /** Every elevator keeps its invariant, and every row and every read in progress is on a floor of the building. */
  ghost predicate WorldSound(w: World) {
    && RowsOnFloors(w.table, w.numFloors)
    && forall i :: 0 <= i < |w.instances| ==>
         && CarsSound(w.instances[i].elevators, w.numFloors)
         && (w.instances[i].pc.Merging? ==> StatesOnFloors(w.instances[i].pc.states, w.numFloors))
  }

  lemma {:induction false} AddMissingIsSound(es: seq<Entry<Car>>, states: seq<Entry<Row>>, numFloors: int)
    requires CarsSound(es, numFloors) && StatesOnFloors(states, numFloors)
    ensures CarsSound(AddMissing(es, states), numFloors)
    decreases |states|
  {
    if states != [] {
      FreshCarOk(states[0].value.floor, numFloors);
      AddMissingIsSound(if Has(es, states[0].id) then es else es + [Created(states[0])], states[1..], numFloors);
    }
  }

  lemma ReadIsSound(t: Table, numFloors: int)
    requires RowsOnFloors(t, numFloors)
    ensures StatesOnFloors(Select(t), numFloors)
  {
    SelectIsComplete(t);
    assert forall k :: 0 <= k < |Select(t)| ==> Select(t)[k] in Select(t);
  }

  lemma DriveIsSound(es: seq<Entry<Car>>, k: nat, act: CarAction, numFloors: int)
    requires CarsSound(es, numFloors) && k < |es| && CarEnabled(es[k].value, act, numFloors)
    ensures CarsSound(es[k := Entry(es[k].id, CarNext(es[k].value, act))], numFloors)
  {
    CarNextKeepsInv(es[k].value, act, numFloors);
  }

  lemma UpsertIsSound(t: Table, id: int, c: Car, numFloors: int)
    requires RowsOnFloors(t, numFloors) && CarInv(c, numFloors)
    ensures RowsOnFloors(t[id := RowOf(c)], numFloors)
  {
  }

  lemma SyncNextIsSound(w: World, a: SyncAction)
    requires WorldSound(w) && SyncEnabled(w, a)
    ensures WorldSound(SyncNext(w, a))
  {
    hide CarInv;
    var p := w.instances[a.i];
    assert CarsSound(p.elevators, w.numFloors);
    match a
    case Upsert(_) =>
      if p.pc.k < |p.elevators| {
        UpsertIsSound(w.table, p.elevators[p.pc.k].id, p.elevators[p.pc.k].value, w.numFloors);
      }
    case Read(_) => ReadIsSound(w.table, w.numFloors);
    case Reconcile(_) => AddMissingIsSound(p.elevators, p.pc.states, w.numFloors);
    case Drive(_, k, act) => DriveIsSound(p.elevators, k, act, w.numFloors);
  }

  lemma {:induction false} SyncRunIsSound(w: World, run: seq<SyncAction>)
    requires WorldSound(w) && SyncFeasible(w, run)
    ensures WorldSound(SyncRun(w, run))
    decreases |run|
  {
    if run != [] {
      SyncNextIsSound(w, run[0]);
      SyncRunIsSound(SyncNext(w, run[0]), run[1..]);
    }
  }

  /** All instances just started, on a table left by earlier ones. */
  ghost predicate FreshWorld(w: World) {
    && RowsOnFloors(w.table, w.numFloors)
    && forall i :: 0 <= i < |w.instances| ==>
         && w.instances[i].pc == Writing(0)
         && forall k :: 0 <= k < |w.instances[i].elevators| ==>
              var c := w.instances[i].elevators[k].value; c == Fresh(c.floor) && InRange(c.floor, w.numFloors)
  }

  lemma FreshWorldIsSound(w: World)
    requires FreshWorld(w)
    ensures WorldSound(w)
  {
    forall i, k | 0 <= i < |w.instances| && 0 <= k < |w.instances[i].elevators|
      ensures CarInv(w.instances[i].elevators[k].value, w.numFloors)
    {
      FreshCarOk(w.instances[i].elevators[k].value.floor, w.numFloors);
    }
  }

  /**
   Whatever the interleaving of workers, emergency calls, pushes, upserts, reads
   and merges across all instances: no elevator of any instance, own or merged,
   leaves the building, and no row says it did.
   */
  lemma FloorsStayInRange(w0: World, run: seq<SyncAction>, w: World, i: nat, k: nat)
    requires FreshWorld(w0) && SyncFeasible(w0, run) && w == SyncRun(w0, run)
    requires i < |w.instances| && k < |w.instances[i].elevators|
    ensures forall id :: id in w.table ==>
              1 <= w.table[id].floor <= w.numFloors && 1 <= w.table[id].dest <= w.numFloors
    ensures var c := w.instances[i].elevators[k].value;
            && 1 <= c.floor <= w.numFloors && 1 <= c.dest <= w.numFloors
            && (InLoop(c) && c.floor != c.dest ==> c.direction == if c.floor < c.dest then Up else Down)
            && (c.pc.OnLeg? && c.pc.at.FloorStep? ==> c.floor != c.dest)
            && (c.status.Stopped? ==> c.floor == c.dest)
  {
    FreshWorldIsSound(w0);
    SyncRunIsSound(w0, run);
    assert CarsSound(w.instances[i].elevators, w.numFloors);
    assert CarInv(w.instances[i].elevators[k].value, w.numFloors);
  }

  // ----- List order -----

  /** Ids are the positions: 0, 1, 2, ... */
  ghost predicate Numbered<T>(es: seq<Entry<T>>) {
    forall k :: 0 <= k < |es| ==> es[k].id == k
  }

  ghost predicate GapFree(keys: set<int>) {
    forall id :: id in keys ==> id >= 0 && forall x :: 0 <= x < id ==> x in keys
  }

  lemma {:induction false} IdAtMostPosition<T>(es: seq<Entry<T>>, k: nat)
    requires Ascending(es) && GapFree(Ids(es)) && k < |es|
    ensures es[k].id <= k
    decreases k
  {
    assert es[k].id in Ids(es);
    if es[k].id > 0 {
      assert es[k].id - 1 in Ids(es);
      var i :| 0 <= i < |es| && es[i].id == es[k].id - 1;
      assert i < k;
      IdAtMostPosition(es, i);
    }
  }

  lemma {:induction false} IdAtLeastPosition<T>(es: seq<Entry<T>>, k: nat)
    requires Ascending(es) && GapFree(Ids(es)) && k < |es|
    ensures es[k].id >= k
  {
    assert es[k].id in Ids(es);
    if k > 0 {
      IdAtLeastPosition(es, k - 1);
    }
  }

  lemma SelectIsNumbered<T>(es: seq<Entry<T>>)
    requires Ascending(es) && GapFree(Ids(es))
    ensures Numbered(es)
  {
    forall k | 0 <= k < |es|
      ensures es[k].id == k
    {
      IdAtMostPosition(es, k);
      IdAtLeastPosition(es, k);
    }
  }

  /** Adding numbered rows, all of whose predecessors are known, extends a numbered list. */
  lemma {:induction false} AddMissingStaysNumbered(es: seq<Entry<Car>>, states: seq<Entry<Row>>, base: nat)
    requires Numbered(es) && base <= |es|
    requires forall k :: 0 <= k < |states| ==> states[k].id == base + k
    ensures Numbered(AddMissing(es, states))
    decreases |states|
  {
    if states != [] {
      assert Has(es, base) <==> base < |es| by {
        if base < |es| {
          assert es[base].id == base;
        }
      }
      AddMissingStaysNumbered(if Has(es, base) then es else es + [Created(states[0])], states[1..], base + 1);
    }
  }

  /** Ids handed out from 0 without gaps, in every list, in the table, and in reads in progress. */
  ghost predicate InIdOrder(w: World) {
    && GapFree(w.table.Keys)
    && forall i :: 0 <= i < |w.instances| ==>
         && Numbered(w.instances[i].elevators)
         && match w.instances[i].pc
            case Writing(k) => k <= |w.instances[i].elevators| && forall j :: 0 <= j < k ==> j in w.table
            case Reading => true
            case Merging(states) => Numbered(states)
  }

  lemma SyncNextKeepsOrder(w: World, a: SyncAction)
    requires InIdOrder(w) && SyncEnabled(w, a)
    ensures InIdOrder(SyncNext(w, a))
  {
    var p := w.instances[a.i];
    match a
    case Upsert(_) =>
    case Read(_) =>
      SelectIsComplete(w.table);
      SelectIsNumbered(Select(w.table));
    case Reconcile(_) => AddMissingStaysNumbered(p.elevators, p.pc.states, 0);
    case Drive(_, _, _) =>
  }

  lemma {:induction false} ListsStayInIdOrder(w: World, run: seq<SyncAction>)
    requires InIdOrder(w) && SyncFeasible(w, run)
    ensures InIdOrder(SyncRun(w, run))
    decreases |run|
  {
    if run != [] {
      SyncNextKeepsOrder(w, run[0]);
      ListsStayInIdOrder(SyncNext(w, run[0]), run[1..]);
    }
  }

  /**
   So in every instance, at any point of any run, the dispatcher's scan breaks
   ties within a band by the lower id, and ties across bands too exactly when no
   equally near elevator with a lower id is in another band.
   */
  lemma TieBreakEverywhere(w0: World, run: seq<SyncAction>, i: nat, views: seq<Dispatch.View>, floor: int, b: nat)
    requires InIdOrder(w0) && SyncFeasible(w0, run)
    requires i < |SyncRun(w0, run).instances| && |views| == |SyncRun(w0, run).instances[i].elevators|
    requires forall j :: 0 <= j < |views| ==> views[j].id == SyncRun(w0, run).instances[i].elevators[j].id
    requires Dispatch.IsBest(views, floor, Some(b))
    ensures forall k: nat :: k < |views| && k != b && !views[k].flagged
                             ==> Dispatch.Before(views[b], views[k], floor) || views[b].id < views[k].id
    ensures (forall k: nat :: Dispatch.Rival(views, floor, b, k) ==> views[b].id < views[k].id)
            <==> forall k: nat :: Dispatch.Rival(views, floor, b, k) && views[k].id < views[b].id
                             ==> Dispatch.Band(views[k], floor) == Dispatch.Band(views[b], floor)
  {
    ListsStayInIdOrder(w0, run);
    forall k: nat | k < |views| && k != b && !views[k].flagged
      ensures Dispatch.Before(views[b], views[k], floor) || views[b].id < views[k].id
    {
      Dispatch.TieInBandGoesToLowerId(views, floor, b, k);
    }
    Dispatch.TieGoesToLowerIdIff(views, floor, b);
  }
}

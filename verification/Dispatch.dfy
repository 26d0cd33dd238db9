/**
 Which elevator gets a request: the dispatcher's integer score
 (`findBestElevator`, `calculateDistance`) and the server's separate search for
 the "go" command.
 */
module Dispatch {
  import opened Domain

  /** What both searches read of one elevator. */
  datatype View = View(id: int, floor: int, direction: Direction, status: Status, flagged: bool)

  /** A moving elevator that would have to turn round to reach `floor`. */
  predicate MovingAway(v: View, floor: int) {
    v.status.Moving? && ((v.direction.Up? && floor < v.floor) || (v.direction.Down? && floor > v.floor))
  }

  function Estimate(v: View, floor: int, numFloors: int): int {
    Distance(v.floor, floor) + if MovingAway(v, floor) then 2 * (numFloors - 1) else 0
  }

  function Score(v: View, floor: int, numFloors: int): int {
    Estimate(v, floor, numFloors) - if v.status.Idle? then numFloors else 0
  }

  /** The result of scanning a prefix of the list: the best index and its score. */
  datatype Cursor = Cursor(best: Option<nat>, shortest: int)

  const START := Cursor(None, INT_MAX)

  /** One iteration of the scan, on the elevator at index `k`. */
  function Look(c: Cursor, v: View, k: nat, floor: int, numFloors: int): Cursor {
    if !v.flagged && Score(v, floor, numFloors) < c.shortest
    then Cursor(Some(k), Score(v, floor, numFloors))
    else c
  }

  // ----- The intended order: three bands, then distance -----

  function Band(v: View, floor: int): nat {
    if v.status.Idle? then 0 else if !MovingAway(v, floor) then 1 else 2
  }

  predicate Before(a: View, b: View, floor: int) {
    || Band(a, floor) < Band(b, floor)
    || (Band(a, floor) == Band(b, floor) && Distance(a.floor, floor) < Distance(b.floor, floor))
  }

  /** `best` is the first least unflagged elevator, or nothing when all are flagged. */
  ghost predicate IsBest(views: seq<View>, floor: int, best: Option<nat>) {
    match best
    case None => forall k :: 0 <= k < |views| ==> views[k].flagged
    case Some(b) =>
      && b < |views|
      && !views[b].flagged
      && (forall k :: 0 <= k < |views| && !views[k].flagged ==> !Before(views[k], views[b], floor))
      && (forall k :: 0 <= k < b && !views[k].flagged ==> Before(views[b], views[k], floor))
  }

  /** Building sizes whose scores all fit below the `int` sentinel. */
  predicate Fits(numFloors: int) {
    numFloors >= 1 && 3 * (numFloors - 1) <= INT_MAX
  }

  ghost predicate OnFloors(views: seq<View>, numFloors: int) {
    forall k :: 0 <= k < |views| ==> InRange(views[k].floor, numFloors)
  }

  /** The bands occupy disjoint score intervals, so the score encodes the order. */
  lemma ScoreEncodesOrder(a: View, b: View, floor: int, numFloors: int)
    requires InRange(floor, numFloors) && InRange(a.floor, numFloors) && InRange(b.floor, numFloors)
    ensures Score(a, floor, numFloors) < Score(b, floor, numFloors) <==> Before(a, b, floor)
    ensures Band(a, floor) == 0 <==> -numFloors <= Score(a, floor, numFloors) <= -1
    ensures Band(a, floor) == 1 <==> 0 <= Score(a, floor, numFloors) <= numFloors - 1
    ensures Band(a, floor) == 2 <==> 2 * numFloors - 1 <= Score(a, floor, numFloors) <= 3 * numFloors - 3
  {
  }

  /**
   `Fits` is the exact limit: it holds if and only if no in-range elevator and
   floor drive the penalised distance past `int`.
   */
  lemma FitsIsExact(numFloors: int)
    requires numFloors >= 1
    ensures Fits(numFloors) <==>
            forall v: View, floor: int :: InRange(v.floor, numFloors) && InRange(floor, numFloors)
                                          ==> Estimate(v, floor, numFloors) <= INT_MAX
    ensures Fits(numFloors) <==> numFloors <= 715_827_883
  {
    var v := View(0, numFloors, Up, Moving, false);
    if numFloors > 1 {
      assert Estimate(v, 1, numFloors) == 3 * (numFloors - 1);
    }
  }

  /** Invariant of the scan over the first `n` elevators. */
  ghost predicate Scanned(views: seq<View>, n: nat, floor: int, numFloors: int, c: Cursor) {
    && n <= |views|
    && IsBest(views[..n], floor, c.best)
    && c.shortest == if c.best.Some? then Score(views[c.best.value], floor, numFloors) else INT_MAX
  }

  lemma LookExtendsScan(views: seq<View>, n: nat, floor: int, numFloors: int, c: Cursor)
    requires Fits(numFloors) && InRange(floor, numFloors) && OnFloors(views, numFloors)
    requires n < |views| && Scanned(views, n, floor, numFloors, c)
    ensures Scanned(views, n + 1, floor, numFloors, Look(c, views[n], n, floor, numFloors))
  {
    forall k | 0 <= k <= n
      ensures Score(views[n], floor, numFloors) < Score(views[k], floor, numFloors)
              <==> Before(views[n], views[k], floor)
      ensures Score(views[k], floor, numFloors) < Score(views[n], floor, numFloors)
              <==> Before(views[k], views[n], floor)
    {
      ScoreEncodesOrder(views[n], views[k], floor, numFloors);
      ScoreEncodesOrder(views[k], views[n], floor, numFloors);
    }
    assert Score(views[n], floor, numFloors) <= 3 * numFloors - 3 < INT_MAX;
    var before, after := views[..n], views[..n + 1];
    assert forall k :: 0 <= k < n ==> before[k] == after[k] == views[k];
    assert after[n] == views[n];
    if c.best.Some? {
      assert before[c.best.value] == views[c.best.value];
    }
  }

  lemma BestIsUnique(views: seq<View>, floor: int, x: Option<nat>, y: Option<nat>)
    requires IsBest(views, floor, x) && IsBest(views, floor, y)
    ensures x == y
  {
  }

  // ----- What docs/Design.md promises, and when it holds -----

  ghost predicate AscendingIds(views: seq<View>) {
    forall i, j :: 0 <= i < j < |views| ==> views[i].id < views[j].id
  }

  /** An unflagged elevator other than `b`, equally near. */
  predicate Rival(views: seq<View>, floor: int, b: nat, k: nat) {
    && b < |views| && k < |views| && k != b && !views[k].flagged
    && Distance(views[k].floor, floor) == Distance(views[b].floor, floor)
  }

  /** Every elevator not worse than the chosen one has a higher id: ties within a band go to the lower id. */
  lemma TieInBandGoesToLowerId(views: seq<View>, floor: int, b: nat, k: nat)
    requires AscendingIds(views) && IsBest(views, floor, Some(b))
    requires k < |views| && k != b && !views[k].flagged
    ensures Before(views[b], views[k], floor) || views[b].id < views[k].id
  {
  }

  /**
   Across bands they need not: all equally near rivals have a higher id if and
   only if every one with a lower id is in the same band.
   */
  lemma TieGoesToLowerIdIff(views: seq<View>, floor: int, b: nat)
    requires AscendingIds(views) && IsBest(views, floor, Some(b))
    ensures (forall k: nat :: Rival(views, floor, b, k) ==> views[b].id < views[k].id)
            <==> forall k: nat :: Rival(views, floor, b, k) && views[k].id < views[b].id
                             ==> Band(views[k], floor) == Band(views[b], floor)
  {
    forall k: nat | Rival(views, floor, b, k) && Band(views[k], floor) == Band(views[b], floor)
      ensures views[b].id < views[k].id
    {
      TieInBandGoesToLowerId(views, floor, b, k);
    }
    assert forall k: nat :: Rival(views, floor, b, k) ==> views[k].id != views[b].id;
  }

  /** The documented choice: the nearest unflagged elevator, the first of equals. */
  ghost predicate IsDocumented(views: seq<View>, floor: int, d: nat) {
    && d < |views| && !views[d].flagged
    && (forall k :: 0 <= k < |views| && !views[k].flagged
                    ==> Distance(views[d].floor, floor) <= Distance(views[k].floor, floor))
    && (forall k :: 0 <= k < d && !views[k].flagged
                    ==> Distance(views[d].floor, floor) < Distance(views[k].floor, floor))
  }

  /** The scan returns it if and only if no unflagged elevator is in a better band. */
  lemma DocumentedChoiceIff(views: seq<View>, floor: int, b: nat, d: nat)
    requires IsBest(views, floor, Some(b)) && IsDocumented(views, floor, d)
    ensures b == d <==> forall k :: 0 <= k < |views| && !views[k].flagged
                                    ==> Band(views[d], floor) <= Band(views[k], floor)
  {
  }

  // ----- The server's "go" search -----

  predicate Available(v: View) {
    v.status.Idle? || v.status.Stopped?
  }

  /** `pick` is the first nearest idle or stopped elevator, if there is one. */
  ghost predicate IsNearest(views: seq<View>, floor: int, pick: Option<nat>) {
    match pick
    case None => forall k :: 0 <= k < |views| ==> !Available(views[k])
    case Some(p) =>
      && p < |views|
      && Available(views[p])
      && (forall k :: 0 <= k < |views| && Available(views[k])
                      ==> Distance(views[p].floor, floor) <= Distance(views[k].floor, floor))
      && (forall k :: 0 <= k < p && Available(views[k])
                      ==> Distance(views[p].floor, floor) < Distance(views[k].floor, floor))
  }

  /** One round of the "go" search. */
  lemma NearestExtends(views: seq<View>, k: nat, floor: int, pick: Option<nat>)
    requires k < |views| && IsNearest(views[..k], floor, pick)
    ensures var closer := pick.None? || Distance(views[k].floor, floor) < Distance(views[pick.value].floor, floor);
            IsNearest(views[..k + 1], floor, if Available(views[k]) && closer then Some(k) else pick)
  {
    var before, after := views[..k], views[..k + 1];
    assert forall j :: 0 <= j < k ==> before[j] == after[j];
  }

  /** What a caller of "go" would have to check for the announced elevator to be the one that comes. */
  predicate Announceable(views: seq<View>, p: nat)
    requires p < |views|
  {
    && !views[p].flagged
    && (|| views[p].status.Idle?
        || forall k :: 0 <= k < |views| && !views[k].flagged
                       ==> !views[k].status.Idle? && (k < p ==> views[k].floor != views[p].floor))
  }

  /**
   The server announces elevator `p` and submits a request from `p`'s own floor.
   On an unchanged snapshot the dispatcher picks `p` exactly when `Announceable`.
   */
  lemma GoAgreesWithDispatcher(views: seq<View>, floor: int, p: nat, chosen: Option<nat>)
    requires IsNearest(views, floor, Some(p))
    requires IsBest(views, views[p].floor, chosen)
    ensures chosen == Some(p) <==> Announceable(views, p)
  {
  }

  /** In particular an idle, unflagged pick is always the one that comes. */
  lemma IdlePickIsHonoured(views: seq<View>, floor: int, p: nat, chosen: Option<nat>)
    requires IsNearest(views, floor, Some(p)) && views[p].status.Idle? && !views[p].flagged
    requires IsBest(views, views[p].floor, chosen)
    ensures chosen == Some(p)
  {
    GoAgreesWithDispatcher(views, floor, p, chosen);
  }
}

/** A column reorder writes its positions one locked step at a time, after it has listed the columns
    and checked their versions. What becomes of the order when another reorder that passed the same
    check writes in between, or when a column is deleted on the way. */
module ColumnRace {
  import opened Sorting
  import opened TaskModel
  import opened TaskStore
  import opened TaskService

  datatype Side = First | Second

  /** The columns, and how many positions each of the two reorders has written. */
  datatype Race = Race(columns: Columns, first: nat, second: nat)

  function Order(xs: seq<string>, ys: seq<string>, side: Side): seq<string> {
    if side.First? then xs else ys
  }

  function Count(r: Race, side: Side): nat {
    if side.First? then r.first else r.second
  }

  /** The next write of one side; a missing column ends that reorder with an error. */
  function Written(xs: seq<string>, ys: seq<string>, r: Race, side: Side, now: int): Race {
    var (order, k) := (Order(xs, ys, side), Count(r, side));
    if k >= |order| || order[k] !in r.columns then r else
      var columns := r.columns[order[k] := MovedColumn(r.columns[order[k]], k, now)];
      if side.First? then Race(columns, k + 1, r.second) else Race(columns, r.first, k + 1)
  }

  function Ran(xs: seq<string>, ys: seq<string>, r: Race, schedule: seq<Side>, now: int): Race
    decreases schedule
  {
    if schedule == [] then r else Ran(xs, ys, Written(xs, ys, r, schedule[0], now), schedule[1..], now)
  }

  ghost predicate ProjectDistinct(columns: Columns, project: string) {
    forall a, b :: a in columns && b in columns && a != b && columns[a].projectId == columns[b].projectId == project ==>
      columns[a].position != columns[b].position
  }

  /** Both orders arrange the columns of the project. */
  ghost predicate Arrange(columns: Columns, project: string, xs: seq<string>, ys: seq<string>) {
    && Lists(xs, ProjectColumnIds(columns, project)) && Lists(ys, ProjectColumnIds(columns, project))
  }

  /** However the writes interleave, the positions tell the columns apart in the end. */
  ghost predicate AlwaysDistinct(columns: Columns, project: string, xs: seq<string>, ys: seq<string>, now: int) {
    forall schedule :: var r := Ran(xs, ys, Race(columns, 0, 0), schedule, now);
      r.first == |xs| && r.second == |ys| ==> ProjectDistinct(r.columns, project)
  }

  // --- any schedule ---

  lemma {:induction false} RanFrame(xs: seq<string>, ys: seq<string>, r: Race, schedule: seq<Side>, now: int)
    ensures var columns := Ran(xs, ys, r, schedule, now).columns;
      columns.Keys == r.columns.Keys && forall id :: id in columns ==> columns[id].projectId == r.columns[id].projectId
    decreases schedule
  {
    if schedule != [] {
      RanFrame(xs, ys, Written(xs, ys, r, schedule[0], now), schedule[1..], now);
    }
  }

  lemma {:induction false} RanSplits(xs: seq<string>, ys: seq<string>, r: Race, a: seq<Side>, b: seq<Side>, now: int)
    ensures Ran(xs, ys, r, a + b, now) == Ran(xs, ys, Ran(xs, ys, r, a, now), b, now)
    decreases a
  {
    if a == [] {
      assert a + b == b;
    } else {
      assert (a + b)[1..] == a[1..] + b;
      RanSplits(xs, ys, Written(xs, ys, r, a[0], now), a[1..], b, now);
    }
  }

  /** A column one of the two has placed stands at its place, when they agree on the order. */
  predicate InPlace(xs: seq<string>, r: Race, id: string) {
    && id in xs && id in r.columns
    && (IndexOf(xs, id) < r.first || IndexOf(xs, id) < r.second ==> r.columns[id].position == IndexOf(xs, id))
  }

  lemma {:induction false} SameOrderPlaces(xs: seq<string>, r: Race, schedule: seq<Side>, now: int, id: string)
    requires NoDup(xs) && InPlace(xs, r, id)
    ensures InPlace(xs, Ran(xs, xs, r, schedule, now), id)
    decreases schedule
  {
    if schedule != [] {
      var k := Count(r, schedule[0]);
      if k < |xs| {
        IndexUnique(xs, k, xs[k]);
      }
      SameOrderPlaces(xs, Written(xs, xs, r, schedule[0], now), schedule[1..], now, id);
    }
  }

  lemma SameOrderDistinct(columns: Columns, project: string, xs: seq<string>, schedule: seq<Side>, now: int)
    requires Arrange(columns, project, xs, xs)
    ensures var r := Ran(xs, xs, Race(columns, 0, 0), schedule, now);
      r.first == |xs| ==> ProjectDistinct(r.columns, project)
  {
    var r := Ran(xs, xs, Race(columns, 0, 0), schedule, now);
    RanFrame(xs, xs, Race(columns, 0, 0), schedule, now);
    forall id | id in r.columns && r.columns[id].projectId == project
      ensures InPlace(xs, r, id)
    {
      assert id in ProjectColumnIds(columns, project);
      SameOrderPlaces(xs, Race(columns, 0, 0), schedule, now, id);
    }
  }

  // --- a schedule that mixes the orders ---

  ghost predicate AllThere(columns: Columns, xs: seq<string>, ys: seq<string>) {
    forall x :: (x in xs <==> x in ys) && (x in xs ==> x in columns)
  }

  /** Where a column stands after n more writes of an order, of which k were made before. */
  function PlaceAfter(columns: Columns, order: seq<string>, k: nat, n: nat, id: string): int
    requires id in columns
  {
    if id in order && k <= IndexOf(order, id) < k + n then IndexOf(order, id) else columns[id].position
  }

  lemma PlaceAfterWrite(xs: seq<string>, ys: seq<string>, r: Race, side: Side, n: nat, now: int, id: string)
    requires NoDup(Order(xs, ys, side)) && Count(r, side) < |Order(xs, ys, side)| && n > 0
    requires Order(xs, ys, side)[Count(r, side)] in r.columns && id in r.columns
    ensures var (order, k, w) := (Order(xs, ys, side), Count(r, side), Written(xs, ys, r, side, now));
      PlaceAfter(w.columns, order, k + 1, n - 1, id) == PlaceAfter(r.columns, order, k, n, id)
  {
    IndexUnique(Order(xs, ys, side), Count(r, side), Order(xs, ys, side)[Count(r, side)]);
  }

  /** Several writes of one side in a row. */
  lemma {:induction false} WriteMany(xs: seq<string>, ys: seq<string>, r: Race, side: Side, n: nat, now: int)
    returns (s: seq<Side>, r': Race)
    requires NoDup(Order(xs, ys, side)) && Count(r, side) + n <= |Order(xs, ys, side)| && AllThere(r.columns, xs, ys)
    ensures Ran(xs, ys, r, s, now) == r' && r'.columns.Keys == r.columns.Keys
    ensures r'.first == r.first + (if side.First? then n else 0) && r'.second == r.second + (if side.Second? then n else 0)
    ensures forall id :: id in r'.columns ==>
      r'.columns[id].position == PlaceAfter(r.columns, Order(xs, ys, side), Count(r, side), n, id)
    decreases n
  {
    if n == 0 {
      s, r' := [], r;
    } else {
      var w := Written(xs, ys, r, side, now);
      assert Order(xs, ys, side)[Count(r, side)] in xs;
      var rest, last := WriteMany(xs, ys, w, side, n - 1, now);
      s, r' := [side] + rest, last;
      assert s[0] == side && s[1..] == rest;
      forall id | id in r'.columns
        ensures r'.columns[id].position == PlaceAfter(r.columns, Order(xs, ys, side), Count(r, side), n, id)
      {
        PlaceAfterWrite(xs, ys, r, side, n, now, id);
      }
    }
  }

  /** Some writes of the first, then some of the second. */
  lemma WriteBoth(xs: seq<string>, ys: seq<string>, r: Race, m: nat, n: nat, now: int) returns (s: seq<Side>, r': Race)
    requires NoDup(xs) && NoDup(ys) && AllThere(r.columns, xs, ys) && r.first + m <= |xs| && r.second + n <= |ys|
    ensures Ran(xs, ys, r, s, now) == r' && r'.columns.Keys == r.columns.Keys && r'.first == r.first + m && r'.second == r.second + n
    ensures forall id :: id in xs ==>
      r'.columns[id].position == if r.second <= IndexOf(ys, id) < r.second + n then IndexOf(ys, id) else PlaceAfter(r.columns, xs, r.first, m, id)
  {
    var s1, r1 := WriteMany(xs, ys, r, First, m, now);
    var s2, r2 := WriteMany(xs, ys, r1, Second, n, now);
    RanSplits(xs, ys, r, s1, s2, now);
    s, r' := s1 + s2, r2;
  }

  lemma {:induction false} LastDifference(xs: seq<string>, ys: seq<string>) returns (i: nat)
    requires |xs| == |ys| && xs != ys
    ensures i < |xs| && xs[i] != ys[i] && forall k :: i < k < |xs| ==> xs[k] == ys[k]
  {
    var n := |xs| - 1;
    if xs[n] != ys[n] {
      i := n;
    } else {
      assert xs == xs[..n] + [xs[n]] && ys == ys[..n] + [ys[n]];
      i := LastDifference(xs[..n], ys[..n]);
      assert forall k :: i < k < n ==> xs[k] == xs[..n][k] && ys[k] == ys[..n][k];
    }
  }

  /** The column of the one order at that place comes earlier in the other. */
  lemma ComesEarlier(xs: seq<string>, ys: seq<string>, i: nat)
    requires NoDup(xs) && NoDup(ys) && |xs| == |ys| && i < |xs| && xs[i] != ys[i] && xs[i] in ys
    requires forall k :: i < k < |xs| ==> xs[k] == ys[k]
    ensures IndexOf(xs, xs[i]) == i && IndexOf(ys, xs[i]) < i
  {
    IndexUnique(xs, i, xs[i]);
  }

  /** At the last place where the orders differ, each of them can be left to place its own column: the
      first writes up to that place, the second past it, then the first and the second the rest. */
  lemma Mixed(columns: Columns, xs: seq<string>, ys: seq<string>, i: nat, now: int) returns (s: seq<Side>)
    requires NoDup(xs) && NoDup(ys) && |xs| == |ys| && i < |xs| && xs[i] != ys[i] && AllThere(columns, xs, ys)
    requires forall k :: i < k < |xs| ==> xs[k] == ys[k]
    ensures var r := Ran(xs, ys, Race(columns, 0, 0), s, now);
      && r.first == |xs| && r.second == |ys| && r.columns.Keys == columns.Keys
      && r.columns[xs[i]].position == i && r.columns[ys[i]].position == i
  {
    var s1, r1 := WriteBoth(xs, ys, Race(columns, 0, 0), i, i + 1, now);
    var s2, r2 := WriteBoth(xs, ys, r1, |xs| - i, |xs| - i - 1, now);
    RanSplits(xs, ys, Race(columns, 0, 0), s1, s2, now);
    ComesEarlier(xs, ys, i);
    ComesEarlier(ys, xs, i);
    s := s1 + s2;
  }

  lemma OrdersAlike(columns: Columns, project: string, xs: seq<string>, ys: seq<string>)
    requires Arrange(columns, project, xs, ys)
    ensures |xs| == |ys| && AllThere(columns, xs, ys) && forall id :: id in xs ==> columns[id].projectId == project
  {
    SameMultisetNoDup(xs, ys);
    assert |multiset(xs)| == |multiset(ys)|;
  }

  /** Two reorders that have both passed the check leave the columns apart in every interleaving of
      their writes exactly when they ask for the same order. */
  lemma ConcurrentReordersCollide(columns: Columns, project: string, xs: seq<string>, ys: seq<string>, now: int)
    requires Arrange(columns, project, xs, ys)
    ensures AlwaysDistinct(columns, project, xs, ys, now) <==> xs == ys
  {
    OrdersAlike(columns, project, xs, ys);
    if xs == ys {
      forall schedule
        ensures var r := Ran(xs, ys, Race(columns, 0, 0), schedule, now);
          r.first == |xs| && r.second == |ys| ==> ProjectDistinct(r.columns, project)
      {
        SameOrderDistinct(columns, project, xs, schedule, now);
      }
    } else {
      var i := LastDifference(xs, ys);
      var schedule := Mixed(columns, xs, ys, i, now);
      RanFrame(xs, ys, Race(columns, 0, 0), schedule, now);
      var r := Ran(xs, ys, Race(columns, 0, 0), schedule, now);
      assert xs[i] in r.columns && ys[i] in r.columns && !ProjectDistinct(r.columns, project);
    }
  }

  // --- a column deleted on the way ---

  /** The writes of one reorder from place k on; the first missing column ends it. */
  function WriteOn(columns: Columns, order: seq<string>, k: nat, now: int): Columns
    decreases |order| - k
  {
    if k >= |order| || order[k] !in columns then columns
    else WriteOn(columns[order[k] := MovedColumn(columns[order[k]], k, now)], order, k + 1, now)
  }

  /** The reorder with the column deleted after j writes. */
  function Interrupted(columns: Columns, order: seq<string>, j: nat, id: string, now: int): Columns
    requires j <= |order|
  {
    WriteOn(WriteOn(columns, order[..j], 0, now) - {id}, order, j, now)
  }

  /** Renumbered up to place k, the rest of the writes renumber up to the first missing column. */
  lemma {:induction false} WriteOnRenumbers(columns: Columns, order: seq<string>, k: nat, stop: nat, now: int)
    requires NoDup(order) && k <= stop <= |order| && (forall i :: k <= i < stop ==> order[i] in columns)
    requires stop < |order| ==> order[stop] !in columns
    ensures WriteOn(ColumnsRenumbered(columns, order[..k], now), order, k, now) == ColumnsRenumbered(columns, order[..stop], now)
    decreases stop - k
  {
    if k < stop {
      ColumnsRenumberedStep(columns, order, k, now);
      WriteOnRenumbers(columns, order, k + 1, stop, now);
    }
  }

  lemma DeleteThenRenumber(columns: Columns, order: seq<string>, id: string, now: int)
    ensures ColumnsRenumbered(columns, order, now) - {id} == ColumnsRenumbered(columns - {id}, order, now)
  {
  }

  lemma FirstWrites(columns: Columns, order: seq<string>, now: int)
    requires NoDup(order) && forall x :: x in order ==> x in columns
    ensures WriteOn(columns, order, 0, now) == ColumnsRenumbered(columns, order, now)
  {
    assert order[..|order|] == order && ColumnsRenumbered(columns, order[..0], now) == columns;
    WriteOnRenumbers(columns, order, 0, |order|, now);
  }

  lemma InterruptedAfter(columns: Columns, order: seq<string>, j: nat, id: string, now: int)
    requires NoDup(order) && j <= |order| && forall x :: x in order ==> x in columns
    ensures Interrupted(columns, order, j, id, now) ==
      WriteOn(ColumnsRenumbered(columns - {id}, order[..j], now), order, j, now)
  {
    FirstWrites(columns, order[..j], now);
    DeleteThenRenumber(columns, order[..j], id, now);
  }

  /** Deleted before its turn, the column cuts the reorder short at its place; deleted after its
      turn, it is missing and no more. */
  lemma DeletionCutsReorder(columns: Columns, order: seq<string>, j: nat, id: string, now: int)
    requires NoDup(order) && j <= |order| && id in order && forall x :: x in order ==> x in columns
    ensures Interrupted(columns, order, j, id, now) ==
      ColumnsRenumbered(columns, if j <= IndexOf(order, id) then order[..IndexOf(order, id)] else order, now) - {id}
  {
    var k := IndexOf(order, id);
    var stop := if j <= k then k else |order|;
    InterruptedAfter(columns, order, j, id, now);
    WriteOnRenumbers(columns - {id}, order, j, stop, now);
    assert order[..|order|] == order;
    DeleteThenRenumber(columns, order[..stop], id, now);
  }

  /** A column behind the one at place k stands, from before, at a place already given away. */
  ghost predicate Overtaken(columns: Columns, order: seq<string>, k: nat) {
    exists x :: x in order && x in columns && IndexOf(order, x) > k && 0 <= columns[x].position < k
  }

  lemma PlacedBefore(columns: Columns, order: seq<string>, k: nat, x: string, now: int)
    requires NoDup(order) && k <= |order| && x in order && x in columns
    ensures ColumnsRenumbered(columns, order[..k], now)[x] ==
      if IndexOf(order, x) < k then MovedColumn(columns[x], IndexOf(order, x), now) else columns[x]
  {
    var i := IndexOf(order, x);
    if i < k {
      assert order[..k][i] == x;
      IndexUnique(order[..k], i, x);
    }
  }

  /** Every column of the project but the deleted one stands at its new place, or at its old one. */
  ghost predicate CutAt(columns: Columns, after: Columns, project: string, order: seq<string>, id: string)
    requires id in order
  {
    && (forall x :: x in after ==> x in columns && x != id && after[x].projectId == columns[x].projectId)
    && (forall x :: x in columns && x != id && columns[x].projectId == project ==>
          x in after && after[x].position == PlaceAfter(columns, order, 0, IndexOf(order, id), x))
  }

  lemma InterruptedPlaces(columns: Columns, project: string, order: seq<string>, j: nat, id: string, now: int)
    requires Lists(order, ProjectColumnIds(columns, project)) && id in order && j <= IndexOf(order, id)
    ensures CutAt(columns, Interrupted(columns, order, j, id, now), project, order, id)
  {
    DeletionCutsReorder(columns, order, j, id, now);
    forall x | x in columns && x != id && columns[x].projectId == project
      ensures ColumnsRenumbered(columns, order[..IndexOf(order, id)], now)[x].position ==
        PlaceAfter(columns, order, 0, IndexOf(order, id), x)
    {
      assert x in ProjectColumnIds(columns, project);
      PlacedBefore(columns, order, IndexOf(order, id), x, now);
    }
  }

  lemma OvertakenCollides(columns: Columns, after: Columns, project: string, order: seq<string>, id: string)
    requires Lists(order, ProjectColumnIds(columns, project)) && id in order && CutAt(columns, after, project, order, id)
    requires Overtaken(columns, order, IndexOf(order, id))
    ensures !ProjectDistinct(after, project)
  {
    var k := IndexOf(order, id);
    var x :| x in order && x in columns && IndexOf(order, x) > k && 0 <= columns[x].position < k;
    var y := order[columns[x].position];
    IndexUnique(order, columns[x].position, y);
    assert x in ProjectColumnIds(columns, project) && y in order && y in ProjectColumnIds(columns, project);
    assert after[x].position == after[y].position && x != y;
  }

  lemma CutDistinct(columns: Columns, after: Columns, project: string, order: seq<string>, id: string)
    requires Lists(order, ProjectColumnIds(columns, project)) && ProjectDistinct(columns, project)
    requires id in order && CutAt(columns, after, project, order, id) && !Overtaken(columns, order, IndexOf(order, id))
    ensures ProjectDistinct(after, project)
  {
    var k := IndexOf(order, id);
    forall a, b | a in after && b in after && a != b && after[a].projectId == after[b].projectId == project
      ensures after[a].position != after[b].position
    {
      assert a in ProjectColumnIds(columns, project) && b in ProjectColumnIds(columns, project);
      assert a in order && b in order && IndexOf(order, a) != IndexOf(order, b) && IndexOf(order, a) != k && IndexOf(order, b) != k;
    }
  }

  /** So the columns left are told apart exactly when none behind the deleted one stood at a place
      already given away. */
  lemma InterruptedDistinct(columns: Columns, project: string, order: seq<string>, j: nat, id: string, now: int)
    requires Lists(order, ProjectColumnIds(columns, project)) && ProjectDistinct(columns, project)
    requires id in order && j <= IndexOf(order, id)
    ensures ProjectDistinct(Interrupted(columns, order, j, id, now), project) <==> !Overtaken(columns, order, IndexOf(order, id))
  {
    InterruptedPlaces(columns, project, order, j, id, now);
    if Overtaken(columns, order, IndexOf(order, id)) {
      OvertakenCollides(columns, Interrupted(columns, order, j, id, now), project, order, id);
    } else {
      CutDistinct(columns, Interrupted(columns, order, j, id, now), project, order, id);
    }
  }
}

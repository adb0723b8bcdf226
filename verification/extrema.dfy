/** MIN and MAX over a tree of hash buckets against MIN and MAX over the whole group. */
module Extrema {
  import opened Numbers

  datatype Agg = Min | Max

  /** Cells are interned; NULL only occurs in columns of dynamic type. */
  type Cell = int

  type Cells = seq<Cell>

  /** `leq` is the comparison of column `i`. */
  datatype ColumnOrder = ColumnOrder(aggs: seq<Agg>, isNull: (nat, Cell) -> bool, leq: (nat, Cell, Cell) -> bool)

  /** One live row of a group, in a hash bucket. */
  datatype Item = Item(group: Cells, bucket: nat, values: Cells)

  ghost predicate TotalPreorder(c: ColumnOrder) {
    && (forall i, x, y :: c.leq(i, x, y) || c.leq(i, y, x))
    && (forall i, x, y, z | c.leq(i, x, y) && c.leq(i, y, z) :: c.leq(i, x, z))
  }

  /** `x` is as good an extremum as `y`. */
  predicate AsGood(c: ColumnOrder, i: nat, x: Cell, y: Cell)
    requires i < |c.aggs|
  {
    if c.aggs[i].Min? then c.leq(i, x, y) else c.leq(i, y, x)
  }

  // ------------------------------------------------------------------------- flat

  /** `min_by` keeps the first of equal cells, `max_by` the last. */
  function Better(c: ColumnOrder, i: nat, current: Cell, next: Cell): Cell
    requires i < |c.aggs|
  {
    if c.aggs[i].Min? then (if c.leq(i, current, next) then current else next)
    else (if c.leq(i, current, next) then next else current)
  }

  function NonNull(c: ColumnOrder, i: nat, cells: seq<Cell>): (kept: seq<Cell>)
    ensures forall x :: x in kept <==> x in cells && !c.isNull(i, x)
  {
    if cells == [] then []
    else
      assert cells == [cells[0]] + cells[1..];
      (if c.isNull(i, cells[0]) then [] else [cells[0]]) + NonNull(c, i, cells[1..])
  }

  function Best(c: ColumnOrder, i: nat, cells: seq<Cell>): Cell
    requires i < |c.aggs| && cells != []
  {
    if |cells| == 1 then cells[0] else Better(c, i, Best(c, i, cells[..|cells| - 1]), cells[|cells| - 1])
  }

  lemma {:induction false} BestIsBest(c: ColumnOrder, i: nat, cells: seq<Cell>)
    requires i < |c.aggs| && cells != [] && TotalPreorder(c)
    ensures Best(c, i, cells) in cells
    ensures forall x | x in cells :: AsGood(c, i, Best(c, i, cells), x)
  {
    if |cells| > 1 {
      var before := cells[..|cells| - 1];
      BestIsBest(c, i, before);
      assert cells == before + [cells[|cells| - 1]];
    }
  }

  function ColumnOf(rows: seq<Cells>, i: nat): (cells: seq<Cell>)
    requires forall r | r in rows :: i < |r|
    ensures |cells| == |rows| && forall j | 0 <= j < |rows| :: cells[j] == rows[j][i]
  {
    seq(|rows|, j requires 0 <= j < |rows| => rows[j][i])
  }

  /** One column's extremum over the live rows, or a NULL when there is no other cell. */
  function Extremum(c: ColumnOrder, i: nat, rows: seq<Cells>): Cell
    requires i < |c.aggs| && rows != [] && forall r | r in rows :: |r| == |c.aggs|
  {
    var kept := NonNull(c, i, ColumnOf(rows, i));
    if kept != [] then Best(c, i, kept) else rows[0][i]
  }

  function ExtremaOf(c: ColumnOrder, rows: seq<Cells>): (values: Cells)
    requires rows != [] && forall r | r in rows :: |r| == |c.aggs|
    ensures |values| == |c.aggs|
  {
    seq(|c.aggs|, i requires 0 <= i < |c.aggs| => Extremum(c, i, rows))
  }

  /** `x` is a correct result for column `i` over `rows`. */
  ghost predicate IsExtremum(c: ColumnOrder, i: nat, rows: seq<Cells>, x: Cell)
    requires i < |c.aggs| && forall r | r in rows :: |r| == |c.aggs|
  {
    && (exists r :: r in rows && r[i] == x)
    && (c.isNull(i, x) <==> forall r | r in rows :: c.isNull(i, r[i]))
    && (forall r | r in rows && !c.isNull(i, r[i]) :: AsGood(c, i, x, r[i]))
  }

  lemma ColumnCells(rows: seq<Cells>, i: nat)
    requires forall r | r in rows :: i < |r|
    ensures forall x :: x in ColumnOf(rows, i) <==> exists r :: r in rows && r[i] == x
  {
    forall r | r in rows ensures r[i] in ColumnOf(rows, i) {
      var j :| 0 <= j < |rows| && rows[j] == r;
      assert ColumnOf(rows, i)[j] == r[i];
    }
  }

  lemma ExtremumIsCorrect(c: ColumnOrder, i: nat, rows: seq<Cells>)
    requires i < |c.aggs| && rows != [] && TotalPreorder(c) && forall r | r in rows :: |r| == |c.aggs|
    ensures IsExtremum(c, i, rows, Extremum(c, i, rows))
  {
    var kept := NonNull(c, i, ColumnOf(rows, i));
    ColumnCells(rows, i);
    if kept != [] {
      BestIsBest(c, i, kept);
    } else {
      assert rows[0] in rows;
      forall r | r in rows ensures c.isNull(i, r[i]) {
        assert r[i] in ColumnOf(rows, i);
      }
    }
  }

  /** Any two correct results compare equal, or are both NULL. */
  lemma ExtremaCompareEqual(c: ColumnOrder, i: nat, rows: seq<Cells>, x: Cell, y: Cell)
    requires i < |c.aggs| && forall r | r in rows :: |r| == |c.aggs|
    requires IsExtremum(c, i, rows, x) && IsExtremum(c, i, rows, y)
    ensures c.isNull(i, x) == c.isNull(i, y)
    ensures !c.isNull(i, x) ==> c.leq(i, x, y) && c.leq(i, y, x)
  {
  }

  // ------------------------------------------------------------------------- tree

  function GroupRows(items: seq<Item>, group: Cells): (rows: seq<Cells>)
    ensures forall v :: v in rows <==> exists x :: x in items && x.group == group && x.values == v
  {
    if items == [] then []
    else
      assert items == [items[0]] + items[1..];
      (if items[0].group == group then [items[0].values] else []) + GroupRows(items[1..], group)
  }

  function BucketRows(items: seq<Item>, group: Cells, bucket: nat): (rows: seq<Cells>)
    ensures forall v :: v in rows <==> Item(group, bucket, v) in items
  {
    if items == [] then []
    else
      assert items == [items[0]] + items[1..];
      (if items[0].group == group && items[0].bucket == bucket then [items[0].values] else [])
      + BucketRows(items[1..], group, bucket)
  }

  predicate WellFormed(c: ColumnOrder, items: seq<Item>) {
    forall x | x in items :: |x.values| == |c.aggs|
  }

  /** A bucket of one group. */
  datatype Key = Key(group: Cells, bucket: nat)

  function KeyOf(x: Item): Key {
    Key(x.group, x.bucket)
  }

  function Keys(items: seq<Item>): (keys: seq<Key>)
    ensures forall k :: k in keys <==> exists x :: x in items && KeyOf(x) == k
    ensures forall a, b | 0 <= a < b < |keys| :: keys[a] != keys[b]
  {
    if items == [] then []
    else
      assert items == [items[0]] + items[1..];
      var rest := Keys(items[1..]);
      if KeyOf(items[0]) in rest then rest else [KeyOf(items[0])] + rest
  }

  function Reduced(c: ColumnOrder, items: seq<Item>, k: Key): Item
    requires WellFormed(c, items) && k in Keys(items)
  {
    ghost var x :| x in items && KeyOf(x) == k;
    assert x == Item(k.group, k.bucket, x.values);
    assert x.values in BucketRows(items, k.group, k.bucket);
    Item(k.group, k.bucket, ExtremaOf(c, BucketRows(items, k.group, k.bucket)))
  }

  /** One row per bucket: the extrema of its rows. */
  function Reduce(c: ColumnOrder, items: seq<Item>): (out: seq<Item>)
    requires WellFormed(c, items)
    ensures |out| == |Keys(items)|
    ensures forall j | 0 <= j < |out| :: out[j] == Reduced(c, items, Keys(items)[j])
  {
    var keys := Keys(items);
    seq(|keys|, j requires 0 <= j < |keys| => Reduced(c, items, keys[j]))
  }

  lemma ReducedIn(c: ColumnOrder, items: seq<Item>, x: Item)
    requires WellFormed(c, items) && x in items
    ensures KeyOf(x) in Keys(items) && Reduced(c, items, KeyOf(x)) in Reduce(c, items)
  {
    var keys := Keys(items);
    assert KeyOf(x) in keys;
    var j :| 0 <= j < |keys| && keys[j] == KeyOf(x);
    assert Reduce(c, items)[j] == Reduced(c, items, KeyOf(x));
  }

  lemma ReduceIsReduced(c: ColumnOrder, items: seq<Item>, y: Item)
    requires WellFormed(c, items) && y in Reduce(c, items)
    ensures KeyOf(y) in Keys(items) && y == Reduced(c, items, KeyOf(y))
  {
    var j :| 0 <= j < |Reduce(c, items)| && Reduce(c, items)[j] == y;
    assert y == Reduced(c, items, Keys(items)[j]);
  }

  /** Move every item to its parent bucket. */
  function Shift(items: seq<Item>): (up: seq<Item>)
    ensures |up| == |items|
    ensures forall j | 0 <= j < |items| :: up[j] == Item(items[j].group, items[j].bucket / 16, items[j].values)
  {
    seq(|items|, j requires 0 <= j < |items| => Item(items[j].group, items[j].bucket / 16, items[j].values))
  }

  /** The cells of column `i` among a group's rows. */
  function CellsAt(items: seq<Item>, g: Cells, i: nat): (cells: set<Cell>)
    requires forall x | x in items :: i < |x.values|
  {
    set x | x in items && x.group == g :: x.values[i]
  }

  predicate HasGroup(items: seq<Item>, g: Cells) {
    exists x :: x in items && x.group == g
  }

  ghost predicate Dominated(c: ColumnOrder, i: nat, cells: set<Cell>, x: Cell)
    requires i < |c.aggs|
  {
    exists y :: y in cells && !c.isNull(i, y) && AsGood(c, i, y, x)
  }

  /** Replacing `items` by `next` loses no group and no extremum. */
  ghost predicate Keeps(c: ColumnOrder, items: seq<Item>, next: seq<Item>, g: Cells, i: nat)
    requires WellFormed(c, items) && WellFormed(c, next) && i < |c.aggs|
  {
    && (HasGroup(items, g) <==> HasGroup(next, g))
    && CellsAt(next, g, i) <= CellsAt(items, g, i)
    && forall x {:trigger Dominated(c, i, CellsAt(next, g, i), x)} | x in CellsAt(items, g, i) && !c.isNull(i, x) ::
         Dominated(c, i, CellsAt(next, g, i), x)
  }

  lemma KeepsSelf(c: ColumnOrder, items: seq<Item>, g: Cells, i: nat)
    requires TotalPreorder(c) && WellFormed(c, items) && i < |c.aggs|
    ensures Keeps(c, items, items, g, i)
  {
    forall x | x in CellsAt(items, g, i) && !c.isNull(i, x) ensures Dominated(c, i, CellsAt(items, g, i), x) {
      assert AsGood(c, i, x, x);
    }
  }

  lemma KeepsTransitive(c: ColumnOrder, a: seq<Item>, b: seq<Item>, d: seq<Item>, g: Cells, i: nat)
    requires TotalPreorder(c) && WellFormed(c, a) && WellFormed(c, b) && WellFormed(c, d) && i < |c.aggs|
    requires Keeps(c, a, b, g, i) && Keeps(c, b, d, g, i)
    ensures Keeps(c, a, d, g, i)
  {
    forall x | x in CellsAt(a, g, i) && !c.isNull(i, x) ensures Dominated(c, i, CellsAt(d, g, i), x) {
      assert Dominated(c, i, CellsAt(b, g, i), x);
      var y :| y in CellsAt(b, g, i) && !c.isNull(i, y) && AsGood(c, i, y, x);
      assert Dominated(c, i, CellsAt(d, g, i), y);
      var z :| z in CellsAt(d, g, i) && !c.isNull(i, z) && AsGood(c, i, z, y);
    }
  }

  lemma ReduceKeeps(c: ColumnOrder, items: seq<Item>, g: Cells, i: nat)
    requires TotalPreorder(c) && i < |c.aggs| && WellFormed(c, items)
    ensures WellFormed(c, Reduce(c, items)) && Keeps(c, items, Reduce(c, items), g, i)
  {
    var out := Reduce(c, items);
    forall y | y in out ensures |y.values| == |c.aggs| {
      ReduceIsReduced(c, items, y);
    }
    forall y | y in out && y.group == g ensures HasGroup(items, g) && y.values[i] in CellsAt(items, g, i) {
      ReduceIsReduced(c, items, y);
      ReducedColumn(c, items, KeyOf(y), i);
      var s :| s in BucketRows(items, g, y.bucket) && s[i] == y.values[i];
      var x := Item(g, y.bucket, s);
      assert x in items && x.group == g && x.values[i] == y.values[i];
    }
    forall x | x in items && x.group == g ensures HasGroup(out, g) && Covered(c, items, out, x, i) {
      ReducedCovers(c, items, x, i);
    }
    forall cell | cell in CellsAt(items, g, i) && !c.isNull(i, cell) ensures Dominated(c, i, CellsAt(out, g, i), cell) {
      var x :| x in items && x.group == g && x.values[i] == cell;
      assert Covered(c, items, out, x, i);
    }
  }

  ghost predicate Covered(c: ColumnOrder, items: seq<Item>, out: seq<Item>, x: Item, i: nat)
    requires i < |c.aggs| && WellFormed(c, items) && WellFormed(c, out) && x in items
  {
    !c.isNull(i, x.values[i]) ==> Dominated(c, i, CellsAt(out, x.group, i), x.values[i])
  }

  lemma ReducedCovers(c: ColumnOrder, items: seq<Item>, x: Item, i: nat)
    requires TotalPreorder(c) && i < |c.aggs| && WellFormed(c, items) && WellFormed(c, Reduce(c, items)) && x in items
    ensures HasGroup(Reduce(c, items), x.group) && Covered(c, items, Reduce(c, items), x, i)
  {
    var out := Reduce(c, items);
    ReducedIn(c, items, x);
    var y := Reduced(c, items, KeyOf(x));
    ReducedColumn(c, items, KeyOf(x), i);
    assert x == Item(x.group, x.bucket, x.values);
    assert x.values in BucketRows(items, x.group, x.bucket);
    assert y in out && y.group == x.group && y.values[i] in CellsAt(out, x.group, i);
  }

  lemma ShiftKeeps(c: ColumnOrder, items: seq<Item>, g: Cells, i: nat)
    requires TotalPreorder(c) && i < |c.aggs| && WellFormed(c, items)
    ensures WellFormed(c, Shift(items)) && Keeps(c, items, Shift(items), g, i)
  {
    var up := Shift(items);
    KeepsSelf(c, items, g, i);
    forall x | x in items && x.group == g ensures x.values[i] in CellsAt(up, g, i) && HasGroup(up, g) {
      var j :| 0 <= j < |items| && items[j] == x;
      assert up[j] in up && up[j].values == x.values;
    }
    forall y | y in up && y.group == g ensures y.values[i] in CellsAt(items, g, i) && HasGroup(items, g) {
      var j :| 0 <= j < |up| && up[j] == y;
      assert items[j] in items;
    }
    assert CellsAt(up, g, i) == CellsAt(items, g, i);
  }

  lemma ReducedColumn(c: ColumnOrder, items: seq<Item>, k: Key, i: nat)
    requires TotalPreorder(c) && i < |c.aggs| && WellFormed(c, items) && k in Keys(items)
    ensures forall r | r in BucketRows(items, k.group, k.bucket) :: |r| == |c.aggs|
    ensures |Reduced(c, items, k).values| == |c.aggs|
    ensures IsExtremum(c, i, BucketRows(items, k.group, k.bucket), Reduced(c, items, k).values[i])
  {
    var rows := BucketRows(items, k.group, k.bucket);
    forall r | r in rows ensures |r| == |c.aggs| {
      assert Item(k.group, k.bucket, r) in items;
    }
    var x :| x in items && KeyOf(x) == k;
    assert x == Item(k.group, k.bucket, x.values);
    assert x.values in rows;
    ExtremumIsCorrect(c, i, rows);
  }

  // --------------------------------------------------------------------- the levels

  // 64-bit hashes are below `Pow16(16)`; each level drops four bits.

  predicate Below(items: seq<Item>, bound: nat) {
    forall x | x in items :: x.bucket < bound
  }

  lemma ReduceBelow(c: ColumnOrder, items: seq<Item>, bound: nat)
    requires WellFormed(c, items) && Below(items, bound)
    ensures Below(Reduce(c, items), bound)
  {
    forall y | y in Reduce(c, items) ensures y.bucket < bound {
      ReduceIsReduced(c, items, y);
      var x :| x in items && KeyOf(x) == KeyOf(y);
    }
  }

  lemma ShiftBelow(items: seq<Item>, n: nat)
    requires n > 0 && Below(items, Pow16(n))
    ensures Below(Shift(items), Pow16(n - 1))
  {
    forall y | y in Shift(items) ensures y.bucket < Pow16(n - 1) {
      var j :| 0 <= j < |Shift(items)| && Shift(items)[j] == y;
      assert items[j] in items;
    }
  }

  /** Every group in one bucket. */
  function Ungrouped(items: seq<Item>): (one: seq<Item>)
    ensures |one| == |items|
    ensures forall j | 0 <= j < |items| :: one[j] == Item(items[j].group, 0, items[j].values)
  {
    seq(|items|, j requires 0 <= j < |items| => Item(items[j].group, 0, items[j].values))
  }

  lemma UngroupedKeeps(c: ColumnOrder, items: seq<Item>, g: Cells, i: nat)
    requires TotalPreorder(c) && i < |c.aggs| && WellFormed(c, items)
    ensures WellFormed(c, Ungrouped(items)) && Keeps(c, items, Ungrouped(items), g, i)
  {
    var one := Ungrouped(items);
    KeepsSelf(c, items, g, i);
    forall x | x in items && x.group == g ensures x.values[i] in CellsAt(one, g, i) && HasGroup(one, g) {
      var j :| 0 <= j < |items| && items[j] == x;
      assert one[j] in one && one[j].values == x.values;
    }
    forall y | y in one && y.group == g ensures y.values[i] in CellsAt(items, g, i) && HasGroup(items, g) {
      var j :| 0 <= j < |one| && one[j] == y;
      assert items[j] in items;
    }
    assert CellsAt(one, g, i) == CellsAt(items, g, i);
  }

  /** `next` keeps every group and every column of `items`. */
  ghost predicate KeepsAll(c: ColumnOrder, items: seq<Item>, next: seq<Item>) {
    WellFormed(c, items) && WellFormed(c, next) && forall g, i: nat | i < |c.aggs| :: Keeps(c, items, next, g, i)
  }

  lemma NextKeepsAll(c: ColumnOrder, items: seq<Item>, mid: seq<Item>, next: seq<Item>)
    requires TotalPreorder(c) && KeepsAll(c, items, mid) && KeepsAll(c, mid, next)
    ensures KeepsAll(c, items, next)
  {
    forall g, i: nat | i < |c.aggs| ensures Keeps(c, items, next, g, i) {
      assert Keeps(c, items, mid, g, i) && Keeps(c, mid, next, g, i);
      KeepsTransitive(c, items, mid, next, g, i);
    }
  }

  lemma ReduceKeepsAll(c: ColumnOrder, items: seq<Item>)
    requires TotalPreorder(c) && WellFormed(c, items) && |c.aggs| > 0
    ensures KeepsAll(c, items, Reduce(c, items))
  {
    ReduceKeeps(c, items, [], 0);
    forall g, i: nat | i < |c.aggs| ensures Keeps(c, items, Reduce(c, items), g, i) {
      ReduceKeeps(c, items, g, i);
    }
  }

  lemma ShiftKeepsAll(c: ColumnOrder, items: seq<Item>)
    requires TotalPreorder(c) && WellFormed(c, items) && |c.aggs| > 0
    ensures KeepsAll(c, items, Shift(items))
  {
    ShiftKeeps(c, items, [], 0);
    forall g, i: nat | i < |c.aggs| ensures Keeps(c, items, Shift(items), g, i) {
      ShiftKeeps(c, items, g, i);
    }
  }

  /** The tree: 15 levels that each fold 16 child buckets into one, then the 16
      remaining buckets, then the group. Any hash will do. */
  method Hierarchical(c: ColumnOrder, items: seq<Item>) returns (out: seq<Item>)
    requires TotalPreorder(c) && |c.aggs| > 0 && WellFormed(c, items) && Below(items, Pow16(16))
    ensures KeepsAll(c, items, out)
    ensures forall a, b | 0 <= a < b < |out| :: out[a].group != out[b].group
  {
    var buckets := items;
    forall g, i: nat | i < |c.aggs| ensures Keeps(c, items, items, g, i) {
      KeepsSelf(c, items, g, i);
    }
    for level := 0 to 15
      invariant KeepsAll(c, items, buckets) && Below(buckets, Pow16(16 - level))
    {
      ReduceKeepsAll(c, buckets);
      ReduceBelow(c, buckets, Pow16(16 - level));
      var reduced := Reduce(c, buckets);
      ShiftKeepsAll(c, reduced);
      ShiftBelow(reduced, 16 - level);
      NextKeepsAll(c, items, buckets, reduced);
      NextKeepsAll(c, items, reduced, Shift(reduced));
      buckets := Shift(reduced);
    }
    ReduceKeepsAll(c, buckets);
    var last := Reduce(c, buckets);
    NextKeepsAll(c, items, buckets, last);
    assert Pow16(1) == 16 * Pow16(0);
    ReduceBelow(c, buckets, 16);
    AtMostSixteen(c, buckets);
    out := Ungrouped(last);
    forall g, i: nat | i < |c.aggs| ensures Keeps(c, last, out, g, i) {
      UngroupedKeeps(c, last, g, i);
    }
    UngroupedKeeps(c, last, [], 0);
    NextKeepsAll(c, items, last, out);
    ghost var one := out;
    ReduceKeepsAll(c, out);
    NextKeepsAll(c, items, out, Reduce(c, out));
    OneRowPerGroup(c, last);
    out := Reduce(c, out);
  }

  lemma OneRowPerGroup(c: ColumnOrder, items: seq<Item>)
    requires WellFormed(c, items) && WellFormed(c, Ungrouped(items))
    ensures
      var out := Reduce(c, Ungrouped(items));
      forall a, b | 0 <= a < b < |out| :: out[a].group != out[b].group
  {
    var keys := Keys(Ungrouped(items));
    forall a | 0 <= a < |keys| ensures keys[a].bucket == 0 {
      assert keys[a] in keys;
      var x :| x in Ungrouped(items) && KeyOf(x) == keys[a];
    }
  }

  function GroupSize(items: seq<Item>, g: Cells): nat {
    if items == [] then 0 else (if items[0].group == g then 1 else 0) + GroupSize(items[1..], g)
  }

  /** The last reduction reads at most sixteen rows of a group, however large it is. */
  lemma AtMostSixteen(c: ColumnOrder, buckets: seq<Item>)
    requires WellFormed(c, buckets) && Below(Reduce(c, buckets), 16)
    ensures forall g :: GroupSize(Reduce(c, buckets), g) <= 16
  {
    var out := Reduce(c, buckets);
    forall g ensures GroupSize(out, g) <= 16 {
      assert forall a, b | 0 <= a < b < |out| :: KeyOf(out[a]) != KeyOf(out[b]);
      DistinctBuckets(out, g, 16);
    }
  }

  function UsedBuckets(items: seq<Item>, g: Cells): (used: set<nat>)
    ensures forall b :: b in used ==> exists j :: 0 <= j < |items| && items[j].group == g && items[j].bucket == b
  {
    if items == [] then {}
    else
      var rest := UsedBuckets(items[1..], g);
      assert forall j | 0 <= j < |items[1..]| :: items[1..][j] == items[j + 1];
      if items[0].group == g then {items[0].bucket} + rest else rest
  }

  lemma DistinctBuckets(items: seq<Item>, g: Cells, bound: nat)
    requires Below(items, bound) && forall a, b | 0 <= a < b < |items| :: KeyOf(items[a]) != KeyOf(items[b])
    ensures GroupSize(items, g) <= bound
  {
    BucketsOf(items, g);
    SubsetSize(UsedBuckets(items, g), NatsBelow(bound));
  }

  lemma {:induction false} BucketsOf(items: seq<Item>, g: Cells)
    requires forall a, b | 0 <= a < b < |items| :: KeyOf(items[a]) != KeyOf(items[b])
    ensures GroupSize(items, g) == |UsedBuckets(items, g)|
  {
    if items != [] {
      assert forall j | 0 <= j < |items[1..]| :: items[1..][j] == items[j + 1];
      BucketsOf(items[1..], g);
      if items[0].group == g {
        forall b | b in UsedBuckets(items[1..], g) ensures b != items[0].bucket {
          var j :| 0 <= j < |items[1..]| && items[1..][j].group == g && items[1..][j].bucket == b;
          assert KeyOf(items[0]) != KeyOf(items[j + 1]);
        }
      }
    }
  }

  /** So for every group the tree gives one row exactly when the group has rows, and
      each cell of it is a correct extremum over all of them: it compares equal to
      the flat one, and is NULL only when every cell is. */
  lemma TreeIsFlat(c: ColumnOrder, items: seq<Item>, out: seq<Item>, y: Item, i: nat)
    requires TotalPreorder(c) && i < |c.aggs| && KeepsAll(c, items, out) && y in out
    requires forall x | x in out && x.group == y.group :: x == y
    ensures HasGroup(items, y.group) && GroupRows(items, y.group) != []
    ensures forall r | r in GroupRows(items, y.group) :: |r| == |c.aggs|
    ensures IsExtremum(c, i, GroupRows(items, y.group), y.values[i])
    ensures
      var flat := Extremum(c, i, GroupRows(items, y.group));
      && c.isNull(i, flat) == c.isNull(i, y.values[i])
      && (!c.isNull(i, flat) ==> c.leq(i, flat, y.values[i]) && c.leq(i, y.values[i], flat))
  {
    var g, cell := y.group, y.values[i];
    var rows := GroupRows(items, g);
    assert Keeps(c, items, out, g, i);
    assert cell in CellsAt(out, g, i) && CellsAt(out, g, i) == {cell};
    var w :| w in items && w.group == g && w.values[i] == cell;
    assert w.values in rows;
    forall r | r in rows && !c.isNull(i, r[i]) ensures !c.isNull(i, cell) && AsGood(c, i, cell, r[i]) {
      var x :| x in items && x.group == g && x.values == r;
      assert r[i] in CellsAt(items, g, i);
      assert Dominated(c, i, CellsAt(out, g, i), r[i]);
    }
    ExtremumIsCorrect(c, i, rows);
    ExtremaCompareEqual(c, i, rows, Extremum(c, i, rows), cell);
  }
}

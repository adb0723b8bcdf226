/** COUNT and SUM of an output group, kept by adding signed contributions to the
    stored row while a group is known to hold small integers only, and recomputed
    from the current input otherwise. */
module Aggregate {
  import opened Rows
  import opened Bags
  import opened Numbers

  /** The bound on a safe group's copies, and on the magnitude of its cells. */
  const SAFE: int := 1_000_000

  /** Grouping key and summed cells of an input row. `inexact` is SQLite's SUM over
      a group that holds other cells than integers and NULLs. */
  datatype Query = Query(keyless: bool, key: Row -> Row, values: seq<Row -> Value>,
                         inexact: (nat, map<Row, int>) -> Value)

  /** A stored result row: its count and its sums. */
  datatype Group = Group(count: int, sums: seq<Value>)

  /** One metadata row: whether the group is safe, and the non-null support of
      each sum. */
  datatype Meta = Meta(safe: bool, nn: seq<int>)

  function KeyOf(q: Query, x: Row): Row {
    if q.keyless then [] else q.key(x)
  }

  function Unit(q: Query, k: Row, x: Row): int {
    if KeyOf(q, x) == k then 1 else 0
  }

  function NonNullUnit(q: Query, i: nat, k: Row, x: Row): int
    requires i < |q.values|
  {
    if KeyOf(q, x) == k && q.values[i](x) != Null then 1 else 0
  }

  function CellUnit(q: Query, i: nat, k: Row, x: Row): int
    requires i < |q.values|
  {
    if KeyOf(q, x) == k && q.values[i](x).Integer? then q.values[i](x).i else 0
  }

  function Count(q: Query, s: Bag, k: Row): int {
    WSum(s, x => Unit(q, k, x))
  }

  function NonNull(q: Query, s: Bag, i: nat, k: Row): int
    requires i < |q.values|
  {
    WSum(s, x => NonNullUnit(q, i, k, x))
  }

  function Sum(q: Query, s: Bag, i: nat, k: Row): int
    requires i < |q.values|
  {
    WSum(s, x => CellUnit(q, i, k, x))
  }

  /** Integers and NULLs, of the bounded magnitude. */
  predicate SmallCell(v: Value) {
    v == Null || (v.Integer? && -SAFE <= v.i <= SAFE)
  }

  predicate SmallRow(q: Query, x: Row) {
    forall i | 0 <= i < |q.values| :: SmallCell(q.values[i](x))
  }

  predicate Integral(q: Query, s: Bag, i: nat, k: Row)
    requires i < |q.values|
  {
    forall j | 0 <= j < |s| && KeyOf(q, s[j].row) == k ::
             q.values[i](s[j].row) == Null || q.values[i](s[j].row).Integer?
  }

  /** The group's rows as the map of their copies. */
  function GroupContents(q: Query, s: Bag, k: Row): map<Row, int> {
    map r | r in RowsOf(s) && KeyOf(q, r) == k && Net(s, r) != 0 :: Net(s, r)
  }

  /** SUM over a whole group. */
  function SumCell(q: Query, s: Bag, i: nat, k: Row): Value
    requires i < |q.values|
  {
    if NonNull(q, s, i, k) == 0 then Null
    else if Integral(q, s, i, k) then Integer(Sum(q, s, i, k))
    else q.inexact(i, GroupContents(q, s, k))
  }

  /** Whether the query shows a row for the group. */
  predicate Shows(q: Query, s: Bag, k: Row) {
    if q.keyless then k == [] else Count(q, s, k) > 0
  }

  /** The row a recomputation gives. */
  function Fresh(q: Query, s: Bag, k: Row): Group {
    Group(Count(q, s, k), seq(|q.values|, i requires 0 <= i < |q.values| => SumCell(q, s, i, k)))
  }

  // ------------------------------------------------------------------ the invariant

  ghost predicate StoredAt(q: Query, stored: map<Row, Group>, s: Bag, k: Row) {
    (k in stored <==> Shows(q, s, k)) && (k in stored ==> stored[k] == Fresh(q, s, k))
  }

  /** A safe group has few copies of small cells, and exact non-null support. */
  ghost predicate SafeGroup(q: Query, s: Bag, k: Row, nn: seq<int>) {
    && Count(q, s, k) <= SAFE
    && |nn| == |q.values| && (forall i | 0 <= i < |q.values| :: nn[i] == NonNull(q, s, i, k))
    && (forall x | Net(s, x) > 0 && KeyOf(q, x) == k :: SmallRow(q, x))
  }

  ghost predicate MetaAt(q: Query, metadata: map<Row, Meta>, s: Bag, k: Row) {
    if k in metadata then metadata[k].safe ==> SafeGroup(q, s, k, metadata[k].nn) else Count(q, s, k) == 0
  }

  ghost predicate AllMeta(q: Query, metadata: map<Row, Meta>, s: Bag) {
    forall k :: MetaAt(q, metadata, s, k)
  }

  ghost predicate StoredOf(q: Query, stored: map<Row, Group>, s: Bag, keys: set<Row>) {
    forall k | k in keys :: StoredAt(q, stored, s, k)
  }

  // ------------------------------------------------------------------ the statements

  function Touched(q: Query, d: Bag): (keys: set<Row>)
    ensures forall i | 0 <= i < |d| :: KeyOf(q, d[i].row) in keys
  {
    set i | 0 <= i < |d| :: KeyOf(q, d[i].row)
  }

  function Abs(n: int): nat {
    if n < 0 then -n else n
  }

  /** The total weight moved by a delta. */
  function Moved(d: Bag): nat {
    if d == [] then 0 else Abs(d[0].m) + Moved(d[1..])
  }

  /** No touched group is unsafe, no touched group can grow beyond the bound, and
      every changed row is small. */
  predicate Eligible(q: Query, metadata: map<Row, Meta>, stored: map<Row, Group>, d: Bag) {
    && (forall k | k in Touched(q, d) && k in metadata :: metadata[k].safe)
    && (forall k | k in Touched(q, d) && k in stored :: stored[k].count + Moved(d) <= SAFE)
    && Moved(d) <= SAFE
    && (forall i | 0 <= i < |d| :: SmallRow(q, d[i].row))
  }

  function AddedSupport(q: Query, metadata: map<Row, Meta>, d: Bag, k: Row): seq<int> {
    seq(|q.values|, i requires 0 <= i < |q.values| =>
      (if k in metadata && i < |metadata[k].nn| then metadata[k].nn[i] else 0) + NonNull(q, d, i, k))
  }

  function UpdateCounts(q: Query, metadata: map<Row, Meta>, d: Bag): map<Row, Meta> {
    var touched := Touched(q, d);
    map k | k in metadata.Keys + touched ::
      if k !in touched then metadata[k]
      else Meta(if k in metadata then metadata[k].safe else true, AddedSupport(q, metadata, d, k))
  }

  function Invalidate(q: Query, metadata: map<Row, Meta>, d: Bag): map<Row, Meta> {
    var touched := Touched(q, d);
    map k | k in metadata.Keys + touched ::
      if k !in touched then metadata[k]
      else Meta(false, if k in metadata then metadata[k].nn else seq(|q.values|, _ => 0))
  }

  /** SUM over the delta's rows of a group, as a cell. */
  function DeltaCell(q: Query, d: Bag, i: nat, k: Row): Value
    requires i < |q.values|
  {
    if exists j ::
      0 <= j < |d| && KeyOf(q, d[j].row) == k && q.values[i](d[j].row) != Null then Integer(Sum(q, d, i, k)) else Null
  }

  function Coalesce(v: Value): int {
    if v.Integer? then v.i else 0
  }

  /** The after image of a touched group on the fast path. */
  function Applied(q: Query, metadata: map<Row, Meta>, stored: map<Row, Group>, d: Bag, k: Row): Group {
    var sums := if k in stored then stored[k].sums else [];
    Group((if k in stored then stored[k].count else 0) + Count(q, d, k),
          seq(|q.values|, i requires 0 <= i < |q.values| =>
            if k in metadata && i < |metadata[k].nn| && metadata[k].nn[i] == 0 then Null
            else Integer((if i < |sums| then Coalesce(sums[i]) else 0) + Coalesce(DeltaCell(q, d, i, k)))))
  }

  function ApplyDelta(q: Query, metadata: map<Row, Meta>, stored: map<Row, Group>, d: Bag): map<Row, Group> {
    var touched := Touched(q, d);
    map k | k in stored.Keys + touched && (k in touched ==>
      q.keyless || Applied(q, metadata, stored, d, k).count > 0) ::
      if k in touched then Applied(q, metadata, stored, d, k) else stored[k]
  }

  function Recompute(q: Query, stored: map<Row, Group>, d: Bag, now: Bag): map<Row, Group> {
    var touched := Touched(q, d);
    map k | k in stored.Keys + touched && (k in touched ==> Shows(q, now, k)) ::
      if k in touched then Fresh(q, now, k) else stored[k]
  }

  // ------------------------------------------------------------------------- proofs

  lemma {:induction false} WSumBelow(s: Bag, g: Row -> int, h: Row -> int)
    requires Positive(s) && forall x :: 0 <= g(x) <= h(x)
    ensures 0 <= WSum(s, g) <= WSum(s, h)
  {
    if s != [] {
      WSumBelow(s[1..], g, h);
      assert s[0].m * g(s[0].row) <= s[0].m * h(s[0].row);
    }
  }

  lemma CountNonNegative(q: Query, s: Bag, k: Row)
    requires Positive(s)
    ensures Count(q, s, k) >= 0
  {
    WSumBelow(s, x => Unit(q, k, x), x => Unit(q, k, x));
  }

  /** No non-null cell, no sum. */
  lemma {:induction false} NoSupportNoSum(q: Query, s: Bag, i: nat, k: Row)
    requires i < |q.values| && Positive(s) && NonNull(q, s, i, k) == 0
    ensures Sum(q, s, i, k) == 0
    ensures forall j | 0 <= j < |s| && KeyOf(q, s[j].row) == k :: q.values[i](s[j].row) == Null
  {
    if s != [] {
      var g := x => NonNullUnit(q, i, k, x);
      WSumBelow(s[1..], g, g);
      assert NonNull(q, s[1..], i, k) >= 0 && s[0].m * g(s[0].row) >= 0;
      NoSupportNoSum(q, s[1..], i, k);
    }
  }

  lemma {:induction false} NoRowNoSum(q: Query, d: Bag, i: nat, k: Row)
    requires i < |q.values|
    requires forall j | 0 <= j < |d| && KeyOf(q, d[j].row) == k :: q.values[i](d[j].row) == Null
    ensures Sum(q, d, i, k) == 0
  {
    if d != [] {
      NoRowNoSum(q, d[1..], i, k);
    }
  }

  lemma {:induction false} UntouchedGroup(q: Query, d: Bag, k: Row)
    requires k !in Touched(q, d)
    ensures Count(q, d, k) == 0
    ensures forall i: nat | i < |q.values| :: NonNull(q, d, i, k) == 0 && Sum(q, d, i, k) == 0
    ensures forall x | KeyOf(q, x) == k :: Net(d, x) == 0
  {
    if d != [] {
      assert forall j | 0 <= j < |d[1..]| :: d[1..][j] == d[j + 1];
      UntouchedGroup(q, d[1..], k);
      assert KeyOf(q, d[0].row) != k;
      forall i: nat | i < |q.values| ensures NonNull(q, d, i, k) == 0 && Sum(q, d, i, k) == 0 {
        assert NonNull(q, d[1..], i, k) == 0 && Sum(q, d[1..], i, k) == 0;
      }
    }
  }

  lemma SumsChange(q: Query, d: Bag, s: Bag, t: Bag, k: Row)
    requires IsDelta(d, s, t)
    ensures Count(q, t, k) == Count(q, s, k) + Count(q, d, k)
    ensures forall i: nat | i < |q.values| :: NonNull(q, t, i, k) == NonNull(q, s, i, k) + NonNull(q, d, i, k)
    ensures forall i: nat | i < |q.values| :: Sum(q, t, i, k) == Sum(q, s, i, k) + Sum(q, d, i, k)
  {
    WSumDelta(d, s, t, x => Unit(q, k, x));
    forall i: nat | i < |q.values|
      ensures NonNull(q, t, i, k) == NonNull(q, s, i, k) + NonNull(q, d, i, k)
      ensures Sum(q, t, i, k) == Sum(q, s, i, k) + Sum(q, d, i, k)
    {
      WSumDelta(d, s, t, x => NonNullUnit(q, i, k, x));
      WSumDelta(d, s, t, x => CellUnit(q, i, k, x));
    }
  }

  lemma {:induction false} MovedBounds(d: Bag, g: Row -> int, bound: int)
    requires bound >= 0 && forall j | 0 <= j < |d| :: -bound <= g(d[j].row) <= bound
    ensures -(bound * Moved(d)) <= WSum(d, g) <= bound * Moved(d)
  {
    if d != [] {
      forall j | 0 <= j < |d[1..]| ensures -bound <= g(d[1..][j].row) <= bound {
        assert d[1..][j] == d[j + 1];
      }
      MovedBounds(d[1..], g, bound);
      ProductBounds(d[0].m, g(d[0].row), bound);
      Distributes(bound, Abs(d[0].m), Moved(d[1..]));
    }
  }

  lemma ProductBounds(m: int, v: int, bound: int)
    requires bound >= 0 && -bound <= v <= bound
    ensures -(bound * Abs(m)) <= m * v <= bound * Abs(m)
  {
    var n := Abs(m);
    Distributes(n, bound, v);
    assert 0 <= n * (bound - v) && 0 <= n * (bound + v);
    assert m * v == if m >= 0 then n * v else -(n * v);
  }

  /** The smallness of a group's rows survives an eligible delta. */
  lemma SmallRowsStay(q: Query, d: Bag, was: Bag, now: Bag, k: Row)
    requires Positive(was) && IsDelta(d, was, now)
    requires forall i | 0 <= i < |d| :: SmallRow(q, d[i].row)
    requires forall x | Net(was, x) > 0 && KeyOf(q, x) == k :: SmallRow(q, x)
    ensures forall x | Net(now, x) > 0 && KeyOf(q, x) == k :: SmallRow(q, x)
  {
    forall x | Net(now, x) > 0 && KeyOf(q, x) == k ensures SmallRow(q, x) {
      NetPositive(was, x);
      if Net(was, x) == 0 {
        if x !in RowsOf(d) {
          NetAbsent(d, x);
        }
        var i :| 0 <= i < |d| && RowsOf(d)[i] == x;
        assert d[i].row == x;
      }
    }
  }

  lemma SmallIsIntegral(q: Query, s: Bag, i: nat, k: Row)
    requires i < |q.values| && Positive(s)
    requires forall x | Net(s, x) > 0 && KeyOf(q, x) == k :: SmallRow(q, x)
    ensures Integral(q, s, i, k)
  {
    forall j | 0 <= j < |s| && KeyOf(q, s[j].row) == k
      ensures q.values[i](s[j].row) == Null || q.values[i](s[j].row).Integer? {
      NetPositive(s, s[j].row);
      assert RowsOf(s)[j] == s[j].row;
      assert SmallRow(q, s[j].row) && SmallCell(q.values[i](s[j].row));
    }
  }

  /** Where nothing is stored yet, or an unrecorded group is empty, support is none. */
  lemma EmptyGroup(q: Query, s: Bag, k: Row)
    requires Positive(s) && Count(q, s, k) == 0
    ensures forall i: nat | i < |q.values| :: NonNull(q, s, i, k) == 0 && Sum(q, s, i, k) == 0
    ensures forall x | KeyOf(q, x) == k :: Net(s, x) == 0
  {
    forall i: nat | i < |q.values| ensures NonNull(q, s, i, k) == 0 && Sum(q, s, i, k) == 0 {
      WSumBelow(s, x => NonNullUnit(q, i, k, x), x => Unit(q, k, x));
      NoSupportNoSum(q, s, i, k);
    }
    forall x | KeyOf(q, x) == k ensures Net(s, x) == 0 {
      NetPositive(s, x);
      NetIsWSum(s, x);
      WSumBelow(s, y => if y == x then 1 else 0, y => Unit(q, k, y));
    }
  }

  /** A group that may take the fast path, seen before the batch. */
  lemma SafeBefore(q: Query, metadata: map<Row, Meta>, stored: map<Row, Group>, was: Bag, d: Bag, k: Row)
    requires Positive(was) && StoredAt(q, stored, was, k) && MetaAt(q, metadata, was, k)
    requires Eligible(q, metadata, stored, d) && k in Touched(q, d)
    ensures SafeGroup(q, was, k, if k in metadata then metadata[k].nn else seq(|q.values|, _ => 0))
    ensures Count(q, was, k) + Moved(d) <= SAFE
  {
    CountNonNegative(q, was, k);
    if k !in metadata {
      EmptyGroup(q, was, k);
    }
  }

  /** Fast path, metadata: the support of every touched group is exact afterwards. */
  lemma UpdatedMeta(q: Query, metadata: map<Row, Meta>, stored: map<Row, Group>, was: Bag, now: Bag, d: Bag, k: Row)
    requires Positive(was) && IsDelta(d, was, now) && StoredAt(q, stored, was, k) && MetaAt(q, metadata, was, k)
    requires Eligible(q, metadata, stored, d)
    ensures MetaAt(q, UpdateCounts(q, metadata, d), now, k)
    ensures k in Touched(q, d) ==>
              && k in UpdateCounts(q, metadata, d) && UpdateCounts(q, metadata, d)[k].safe
              && SafeGroup(q, now, k, UpdateCounts(q, metadata, d)[k].nn)
  {
    if k in Touched(q, d) {
      SafeBefore(q, metadata, stored, was, d, k);
      SafeAfter(q, was, now, d, k, if k in metadata then metadata[k].nn else seq(|q.values|, _ => 0),
                UpdateCounts(q, metadata, d)[k].nn);
    } else {
      UntouchedMeta(q, was, now, d, k);
    }
  }

  lemma SafeAfter(q: Query, was: Bag, now: Bag, d: Bag, k: Row, nn: seq<int>, nn': seq<int>)
    requires Positive(was) && IsDelta(d, was, now) && SafeGroup(q, was, k, nn) && Count(q, was, k) + Moved(d) <= SAFE
    requires forall i | 0 <= i < |d| :: SmallRow(q, d[i].row)
    requires |nn'| == |q.values| && forall i | 0 <= i < |q.values| :: nn'[i] == nn[i] + NonNull(q, d, i, k)
    ensures SafeGroup(q, now, k, nn')
  {
    SumsChange(q, d, was, now, k);
    SmallRowsStay(q, d, was, now, k);
    CountMoved(q, d, k);
    forall i | 0 <= i < |q.values| ensures nn'[i] == NonNull(q, now, i, k) {
      assert NonNull(q, now, i, k) == NonNull(q, was, i, k) + NonNull(q, d, i, k);
    }
  }

  lemma {:induction false} CountMoved(q: Query, d: Bag, k: Row)
    ensures Count(q, d, k) <= Moved(d)
  {
    if d != [] {
      CountMoved(q, d[1..], k);
    }
  }

  /** A group the delta does not touch has the rows it had. */
  lemma UntouchedMeta(q: Query, was: Bag, now: Bag, d: Bag, k: Row)
    requires Positive(was) && IsDelta(d, was, now) && k !in Touched(q, d)
    ensures Count(q, now, k) == Count(q, was, k)
    ensures forall nn | SafeGroup(q, was, k, nn) :: SafeGroup(q, now, k, nn)
  {
    SumsChange(q, d, was, now, k);
    UntouchedGroup(q, d, k);
    forall nn | SafeGroup(q, was, k, nn) ensures SafeGroup(q, now, k, nn) {
      forall x | Net(now, x) > 0 && KeyOf(q, x) == k ensures SmallRow(q, x) {
        assert Net(was, x) > 0;
      }
    }
  }

  /** Fast path, one sum: adding the delta's cell to the stored one gives the sum
      over the current input, and NULL exactly when no non-null cell is left. */
  lemma AppliedCell(q: Query, was: Bag, now: Bag, d: Bag, i: nat, k: Row, stored: Value)
    requires i < |q.values| && Positive(was) && Positive(now) && IsDelta(d, was, now)
    requires forall x | Net(was, x) > 0 && KeyOf(q, x) == k :: SmallRow(q, x)
    requires forall x | Net(now, x) > 0 && KeyOf(q, x) == k :: SmallRow(q, x)
    requires stored == SumCell(q, was, i, k) || (stored == Null && Count(q, was, k) == 0)
    ensures SumCell(q, now, i, k) == if NonNull(q, now, i, k) ==
              0 then Null else Integer(Coalesce(stored) + Coalesce(DeltaCell(q, d, i, k)))
  {
    SumsChange(q, d, was, now, k);
    SmallIsIntegral(q, was, i, k);
    SmallIsIntegral(q, now, i, k);
    if Count(q, was, k) == 0 {
      EmptyGroup(q, was, k);
    }
    if NonNull(q, was, i, k) == 0 {
      NoSupportNoSum(q, was, i, k);
    }
    if DeltaCell(q, d, i, k) == Null {
      NoRowNoSum(q, d, i, k);
    }
  }

  /** Fast path, one cell of the after image. */
  lemma AppliedSum(q: Query, updated: map<Row, Meta>, stored: map<Row, Group>, was: Bag, now: Bag, d: Bag, i: nat,
                   k: Row, nn: seq<int>)
    requires i < |q.values| && Positive(was) && Positive(now) && IsDelta(d, was, now)
    requires SafeGroup(q, was, k, nn) && k in updated && SafeGroup(q, now, k, updated[k].nn)
    requires if k in stored then stored[k] == Fresh(q, was, k) else Count(q, was, k) == 0
    ensures Applied(q, updated, stored, d, k).sums[i] == SumCell(q, now, i, k)
  {
    var cell := if k in stored then stored[k].sums[i] else Null;
    assert cell == SumCell(q, was, i, k) || (cell == Null && Count(q, was, k) == 0);
    AppliedCell(q, was, now, d, i, k, cell);
    assert updated[k].nn[i] == NonNull(q, now, i, k);
  }

  /** Fast path, the whole group. */
  lemma AppliedFresh(q: Query, metadata: map<Row, Meta>, stored: map<Row, Group>, was: Bag, now: Bag, d: Bag, k: Row)
    requires Positive(was) && Positive(now) && IsDelta(d, was, now) && StoredAt(q, stored, was, k)
    requires MetaAt(q, metadata, was, k)
    requires Eligible(q, metadata, stored, d) && k in Touched(q, d)
    ensures Applied(q, UpdateCounts(q, metadata, d), stored, d, k) == Fresh(q, now, k)
  {
    var updated := UpdateCounts(q, metadata, d);
    var nn := if k in metadata then metadata[k].nn else seq(|q.values|, _ => 0);
    StoredBefore(q, stored, was, d, k);
    SumsChange(q, d, was, now, k);
    SafeBefore(q, metadata, stored, was, d, k);
    UpdatedMeta(q, metadata, stored, was, now, d, k);
    var applied, fresh_ := Applied(q, updated, stored, d, k), Fresh(q, now, k);
    assert applied.sums == fresh_.sums by {
      forall i: nat | i < |q.values| ensures applied.sums[i] == fresh_.sums[i] {
        AppliedSum(q, updated, stored, was, now, d, i, k, nn);
      }
    }
  }

  /** A touched group that is not stored has no rows. */
  lemma StoredBefore(q: Query, stored: map<Row, Group>, was: Bag, d: Bag, k: Row)
    requires Positive(was) && StoredAt(q, stored, was, k) && k in Touched(q, d)
    ensures if k in stored then stored[k] == Fresh(q, was, k) else Count(q, was, k) == 0
  {
    CountNonNegative(q, was, k);
    if q.keyless {
      KeylessTouched(q, d, k);
    }
  }

  lemma KeylessTouched(q: Query, d: Bag, k: Row)
    requires q.keyless && k in Touched(q, d)
    ensures k == []
  {
  }

  lemma FastPath(q: Query, metadata: map<Row, Meta>, stored: map<Row, Group>, was: Bag, now: Bag, d: Bag, k: Row)
    requires Positive(was) && Positive(now) && IsDelta(d, was, now) && StoredAt(q, stored, was, k)
    requires MetaAt(q, metadata, was, k)
    requires Eligible(q, metadata, stored, d)
    ensures StoredAt(q, ApplyDelta(q, UpdateCounts(q, metadata, d), stored, d), now, k)
    ensures MetaAt(q, UpdateCounts(q, metadata, d), now, k)
  {
    UpdatedMeta(q, metadata, stored, was, now, d, k);
    if k in Touched(q, d) {
      AppliedFresh(q, metadata, stored, was, now, d, k);
      if q.keyless {
        KeylessTouched(q, d, k);
      }
    } else {
      UntouchedFresh(q, stored, was, now, d, k);
    }
  }

  lemma UntouchedFresh(q: Query, stored: map<Row, Group>, was: Bag, now: Bag, d: Bag, k: Row)
    requires Positive(was) && Positive(now) && IsDelta(d, was, now) && k !in Touched(q, d)
    ensures Fresh(q, now, k) == Fresh(q, was, k) && (Shows(q, now, k) <==> Shows(q, was, k))
  {
    SumsChange(q, d, was, now, k);
    UntouchedGroup(q, d, k);
    forall i: nat | i < |q.values| ensures SumCell(q, now, i, k) == SumCell(q, was, i, k) {
      SameGroup(q, was, now, i, k);
    }
    assert Fresh(q, now, k).sums == Fresh(q, was, k).sums;
  }

  /** A group's sum depends only on the copies of its rows. */
  lemma SameGroup(q: Query, s: Bag, t: Bag, i: nat, k: Row)
    requires i < |q.values| && Positive(s) && Positive(t)
    requires forall x | KeyOf(q, x) == k :: Net(s, x) == Net(t, x)
    requires NonNull(q, s, i, k) == NonNull(q, t, i, k) && Sum(q, s, i, k) == Sum(q, t, i, k)
    ensures SumCell(q, s, i, k) == SumCell(q, t, i, k)
  {
    assert forall x | KeyOf(q, x) == k :: x in RowsOf(s) <==> x in RowsOf(t) by {
      forall x | KeyOf(q, x) == k ensures x in RowsOf(s) <==> x in RowsOf(t) {
        NetPositive(s, x);
        NetPositive(t, x);
      }
    }
    IntegralRows(q, s, i, k);
    IntegralRows(q, t, i, k);
    assert GroupContents(q, s, k) == GroupContents(q, t, k);
  }

  lemma IntegralRows(q: Query, s: Bag, i: nat, k: Row)
    requires i < |q.values|
    ensures Integral(q, s, i, k) <==> forall x | x in RowsOf(s) && KeyOf(q, x) == k ::
              q.values[i](x) == Null || q.values[i](x).Integer?
  {
    assert forall j | 0 <= j < |s| :: RowsOf(s)[j] == s[j].row && RowsOf(s)[j] in RowsOf(s);
  }

  /** Slow path: touched groups are recomputed and never trusted again. */
  lemma SlowPath(q: Query, metadata: map<Row, Meta>, stored: map<Row, Group>, was: Bag, now: Bag, d: Bag, k: Row)
    requires Positive(was) && Positive(now) && IsDelta(d, was, now) && StoredAt(q, stored, was, k)
    requires MetaAt(q, metadata, was, k)
    ensures StoredAt(q, Recompute(q, stored, d, now), now, k)
    ensures MetaAt(q, Invalidate(q, metadata, d), now, k)
  {
    if k in Touched(q, d) {
      if q.keyless {
        KeylessTouched(q, d, k);
      }
    } else {
      UntouchedFresh(q, stored, was, now, d, k);
      UntouchedMeta(q, was, now, d, k);
    }
  }

  /** Whatever order the contributions of an eligible delta are added in, no partial
      sum leaves 10^12: neither the delta's own, nor added to the stored sum. */
  lemma NoOverflow(q: Query, metadata: map<Row, Meta>, stored: map<Row, Group>, was: Bag, d: Bag, i: nat, k: Row,
                   part: Bag)
    requires i < |q.values| && Positive(was) && StoredAt(q, stored, was, k) && MetaAt(q, metadata, was, k)
    requires Eligible(q, metadata, stored, d) && k in Touched(q, d)
    requires Moved(part) <= Moved(d) && forall j | 0 <= j < |part| :: part[j] in d
    ensures Abs(Sum(q, part, i, k)) <= SAFE * SAFE
    ensures Abs(Sum(q, was, i, k)) <= SAFE * SAFE
    ensures Abs(Sum(q, was, i, k) + Sum(q, part, i, k)) <= SAFE * SAFE
  {
    SafeBefore(q, metadata, stored, was, d, k);
    forall j | 0 <= j < |part| ensures -SAFE <= CellUnit(q, i, k, part[j].row) <= SAFE {
      SmallUnit(q, i, k, part[j].row);
    }
    MovedBounds(part, x => CellUnit(q, i, k, x), SAFE);
    SumOfSafe(q, was, i, k);
    CountNonNegative(q, was, k);
    WithinSquare(Sum(q, was, i, k), Count(q, was, k), Sum(q, part, i, k), Moved(part), Moved(d));
  }

  lemma WithinSquare(sum: int, count: int, part: int, moved: int, total: int)
    requires -(SAFE * count) <= sum <= SAFE * count && -(SAFE * moved) <= part <= SAFE * moved
    requires 0 <= count && 0 <= moved <= total && count + total <= SAFE
    ensures Abs(part) <= SAFE * SAFE && Abs(sum) <= SAFE * SAFE && Abs(sum + part) <= SAFE * SAFE
  {
  }

  lemma SmallUnit(q: Query, i: nat, k: Row, x: Row)
    requires i < |q.values| && SmallRow(q, x)
    ensures -SAFE <= CellUnit(q, i, k, x) <= SAFE
  {
    assert SmallCell(q.values[i](x));
  }

  lemma SumOfSafe(q: Query, s: Bag, i: nat, k: Row)
    requires i < |q.values| && Positive(s)
    requires forall x | Net(s, x) > 0 && KeyOf(q, x) == k :: SmallRow(q, x)
    ensures -(SAFE * Count(q, s, k)) <= Sum(q, s, i, k) <= SAFE * Count(q, s, k)
  {
    forall j: nat | j < |s| && KeyOf(q, s[j].row) == k ensures SmallRow(q, s[j].row) {
      NetPositive(s, s[j].row);
      assert RowsOf(s)[j] == s[j].row;
    }
    SumOfSmall(q, s, i, k);
  }

  lemma {:induction false} SumOfSmall(q: Query, s: Bag, i: nat, k: Row)
    requires i < |q.values| && Positive(s)
    requires forall j: nat | j < |s| && KeyOf(q, s[j].row) == k :: SmallRow(q, s[j].row)
    ensures -(SAFE * Count(q, s, k)) <= Sum(q, s, i, k) <= SAFE * Count(q, s, k)
  {
    if s != [] {
      assert forall j | 0 <= j < |s[1..]| :: s[1..][j] == s[j + 1];
      SumOfSmall(q, s[1..], i, k);
      if KeyOf(q, s[0].row) == k {
        SmallUnit(q, i, k, s[0].row);
        ProductBounds(s[0].m, CellUnit(q, i, k, s[0].row), SAFE);
      }
      assert Count(q, s, k) == s[0].m * Unit(q, k, s[0].row) + Count(q, s[1..], k);
    }
  }

  // ------------------------------------------------------------ what is counted and summed

  predicate Belongs(q: Query, x: Row, k: Row) {
    if q.keyless then k == [] else q.key(x) == k
  }

  /** What `m` more copies of a row change; over no row there is nothing to count or sum. */
  lemma AddedRow(q: Query, s: Bag, x: Row, m: int, k: Row)
    ensures
      var t, in_ := s + [Weighted(x, m)], Belongs(q, x, k);
      && Count(q, t, k) == Count(q, s, k) + (if in_ then m else 0)
      && (forall i: nat | i < |q.values| :: NonNull(q, t, i, k) ==
            NonNull(q, s, i, k) + if in_ && q.values[i](x) != Null then m else 0)
      && (forall i: nat | i < |q.values| :: Sum(q, t, i, k) ==
            Sum(q, s, i, k) + if in_ && q.values[i](x).Integer? then m * q.values[i](x).i else 0)
    ensures Count(q, [], k) == 0
    ensures forall i: nat | i < |q.values| :: NonNull(q, [], i, k) == 0 && Sum(q, [], i, k) == 0
  {
    var w := Weighted(x, m);
    assert [w][1..] == [];
    WSumAppend(s, [w], x => Unit(q, k, x));
    forall i: nat | i < |q.values|
      ensures NonNull(q, s + [w], i, k) ==
                NonNull(q, s, i, k) + if Belongs(q, x, k) && q.values[i](x) != Null then m else 0
      ensures Sum(q, s + [w], i, k) ==
                Sum(q, s, i, k) + if Belongs(q, x, k) && q.values[i](x).Integer? then m * q.values[i](x).i else 0
    {
      WSumAppend(s, [w], x => NonNullUnit(q, i, k, x));
      WSumAppend(s, [w], x => CellUnit(q, i, k, x));
    }
  }

  /** A row as often as it is there. */
  function Copies(x: Row, n: nat): seq<Row> {
    seq(n, _ => x)
  }

  /** The bag's rows of a group, copy by copy. */
  function Unrolled(q: Query, s: Bag, k: Row): seq<Row> {
    if s == [] then []
    else
      (if Belongs(q, s[0].row, k) && s[0].m > 0 then Copies(s[0].row, s[0].m) else []) + Unrolled(q, s[1..], k)
  }

  function Total(rows: seq<Row>, value: Row -> Value): int {
    if rows == [] then 0
    else (if value(rows[0]).Integer? then value(rows[0]).i else 0) + Total(rows[1..], value)
  }

  function NonNulls(rows: seq<Row>, value: Row -> Value): nat {
    if rows == [] then 0 else (if value(rows[0]) == Null then 0 else 1) + NonNulls(rows[1..], value)
  }

  lemma {:induction false} TotalAppend(a: seq<Row>, b: seq<Row>, value: Row -> Value)
    ensures Total(a + b, value) == Total(a, value) + Total(b, value)
    ensures NonNulls(a + b, value) == NonNulls(a, value) + NonNulls(b, value)
  {
    if a == [] {
      assert a + b == b;
    } else {
      assert (a + b)[1..] == a[1..] + b;
      TotalAppend(a[1..], b, value);
    }
  }

  lemma {:induction false} TotalCopies(x: Row, n: nat, value: Row -> Value)
    ensures Total(Copies(x, n), value) == if value(x).Integer? then n * value(x).i else 0
    ensures NonNulls(Copies(x, n), value) == if value(x) == Null then 0 else n
  {
    if n > 0 {
      assert Copies(x, n)[1..] == Copies(x, n - 1);
      TotalCopies(x, n - 1, value);
      if value(x).Integer? {
        Distributes(value(x).i, n - 1, 1);
      }
    }
  }

  /** COUNT counts the copies of the group's rows; SUM adds their cells one by one. */
  lemma {:induction false} PlainTotals(q: Query, s: Bag, k: Row)
    requires Positive(s)
    ensures Count(q, s, k) == |Unrolled(q, s, k)|
    ensures forall i: nat | i < |q.values| ::
              NonNull(q, s, i, k) == NonNulls(Unrolled(q, s, k), q.values[i])
              && Sum(q, s, i, k) == Total(Unrolled(q, s, k), q.values[i])
  {
    if s != [] {
      PlainTotals(q, s[1..], k);
      var x, m := s[0].row, s[0].m;
      var rest := Unrolled(q, s[1..], k);
      assert Unit(q, k, x) == if Belongs(q, x, k) then 1 else 0;
      forall i: nat | i < |q.values|
        ensures NonNull(q, s, i, k) == NonNulls(Unrolled(q, s, k), q.values[i])
        ensures Sum(q, s, i, k) == Total(Unrolled(q, s, k), q.values[i])
      {
        TotalCopies(x, m, q.values[i]);
        TotalAppend(Copies(x, m), rest, q.values[i]);
        assert [] + rest == rest;
        assert NonNull(q, s, i, k) == m * NonNullUnit(q, i, k, x) + NonNull(q, s[1..], i, k);
        assert Sum(q, s, i, k) == m * CellUnit(q, i, k, x) + Sum(q, s[1..], i, k);
      }
    }
  }

  /** A stored group is right: its count is the number of its rows' copies, a sum of
      integers is their total, NULL when there is no cell to add, and any other sum is
      that of the rows with their numbers of copies. */
  predicate ShowsTotals(q: Query, s: Bag, k: Row, g: Group) {
    var rows := Unrolled(q, s, k);
    && g.count == |rows| && |g.sums| == |q.values|
    && forall i | 0 <= i < |q.values| ::
         g.sums[i] ==
           if forall x | x in rows :: q.values[i](x) == Null then Null
           else if Addable(rows, q.values[i]) then Integer(Total(rows, q.values[i]))
           else q.inexact(i, Tally(rows))
  }

  /** A group has a row while it has rows; without GROUP BY the one group always has. */
  predicate ShowsGroup(q: Query, s: Bag, k: Row) {
    if q.keyless then k == [] else Unrolled(q, s, k) != []
  }

  /** These groups are stored while they have a row, and then they are right. */
  predicate StoredTotals(q: Query, stored: map<Row, Group>, s: Bag, keys: set<Row>) {
    forall k | k in keys :: (k in stored <==> ShowsGroup(q, s, k)) && (k in stored ==> ShowsTotals(q, s, k, stored[k]))
  }

  /** How often each row occurs. */
  function Tally(rows: seq<Row>): map<Row, int> {
    map x | x in rows :: multiset(rows)[x]
  }

  lemma {:induction false} UnrolledCopies(q: Query, s: Bag, k: Row, x: Row)
    requires Positive(s)
    ensures multiset(Unrolled(q, s, k))[x] == if Belongs(q, x, k) then Net(s, x) else 0
  {
    if s != [] {
      UnrolledCopies(q, s[1..], k, x);
      CopiesCount(s[0].row, s[0].m, x);
      var here := if Belongs(q, s[0].row, k) then Copies(s[0].row, s[0].m) else [];
      assert Unrolled(q, s, k) == here + Unrolled(q, s[1..], k);
      assert multiset(here)[x] == if Belongs(q, s[0].row, k) && s[0].row == x then s[0].m else 0;
    }
  }

  lemma {:induction false} CopiesCount(x: Row, n: nat, y: Row)
    ensures multiset(Copies(x, n))[y] == if y == x then n else 0
  {
    if n > 0 {
      CopiesCount(x, n - 1, y);
      assert Copies(x, n) == Copies(x, n - 1) + [x];
    }
  }

  lemma TallyContents(q: Query, s: Bag, k: Row)
    requires Positive(s)
    ensures GroupContents(q, s, k) == Tally(Unrolled(q, s, k))
  {
    var rows := Unrolled(q, s, k);
    forall x
      ensures x in rows <==> x in RowsOf(s) && KeyOf(q, x) == k && Net(s, x) != 0
      ensures x in rows ==> multiset(rows)[x] == Net(s, x)
    {
      UnrolledCopies(q, s, k, x);
      NetPositive(s, x);
      assert x in rows <==> multiset(rows)[x] > 0;
    }
  }

  predicate Addable(rows: seq<Row>, value: Row -> Value) {
    forall x | x in rows :: value(x) == Null || value(x).Integer?
  }

  lemma {:induction false} InUnrolled(q: Query, s: Bag, k: Row, x: Row)
    ensures x in Unrolled(q, s, k) <==> exists j :: 0 <= j < |s| && s[j].row == x && s[j].m > 0 && Belongs(q, x, k)
  {
    if s != [] {
      InUnrolled(q, s[1..], k, x);
      assert forall j | 0 <= j < |s[1..]| :: s[1..][j] == s[j + 1];
      if Belongs(q, s[0].row, k) && s[0].m > 0 {
        assert Copies(s[0].row, s[0].m)[0] == s[0].row;
      }
      if x in Unrolled(q, s[1..], k) {
        var j :| 0 <= j < |s[1..]| && s[1..][j].row == x && s[1..][j].m > 0 && Belongs(q, x, k);
        assert s[j + 1].row == x;
      }
    }
  }

  lemma {:induction false} NoNonNulls(rows: seq<Row>, value: Row -> Value)
    ensures NonNulls(rows, value) == 0 <==> forall x | x in rows :: value(x) == Null
  {
    if rows != [] {
      NoNonNulls(rows[1..], value);
      assert rows == [rows[0]] + rows[1..];
    }
  }

  /** So a fresh group is. */
  lemma FreshTotals(q: Query, s: Bag, k: Row)
    requires Positive(s)
    ensures ShowsTotals(q, s, k, Fresh(q, s, k))
  {
    var rows := Unrolled(q, s, k);
    PlainTotals(q, s, k);
    TallyContents(q, s, k);
    forall i: nat | i < |q.values|
      ensures NonNull(q, s, i, k) == 0 <==> forall x | x in rows :: q.values[i](x) == Null
      ensures Integral(q, s, i, k) <==> Addable(rows, q.values[i])
    {
      NoNonNulls(rows, q.values[i]);
      AddableRows(q, s, i, k);
    }
  }

  lemma AddableRows(q: Query, s: Bag, i: nat, k: Row)
    requires Positive(s) && i < |q.values|
    ensures Integral(q, s, i, k) <==> Addable(Unrolled(q, s, k), q.values[i])
  {
    forall x ensures x in Unrolled(q, s, k) <==>
                exists j :: 0 <= j < |s| && s[j].row == x && s[j].m > 0 && Belongs(q, x, k)
    {
      InUnrolled(q, s, k, x);
    }
    if Addable(Unrolled(q, s, k), q.values[i]) {
      forall j | 0 <= j < |s| && KeyOf(q, s[j].row) == k
        ensures q.values[i](s[j].row) == Null || q.values[i](s[j].row).Integer?
      {
        assert Belongs(q, s[j].row, k) && s[j].m > 0;
        assert s[j].row in Unrolled(q, s, k);
      }
    }
  }

  // ---------------------------------------------------------------------- the node

  class Aggregates {
    const q: Query
    var metadata: map<Row, Meta>
    var stored: map<Row, Group>

    constructor (q: Query, metadata: map<Row, Meta>, stored: map<Row, Group>)
      ensures this.q == q && this.metadata == metadata && this.stored == stored
    {
      this.q, this.metadata, this.stored := q, metadata, stored;
    }

    /** One batch: `d` is the input's delta, `now` its current rows. `stored` holds the
        touched groups, and any others. */
    method Drain(d: Bag, now: Bag, ghost was: Bag) returns (fast: bool)
      requires Positive(was) && Positive(now) && IsDelta(d, was, now)
      requires AllMeta(q, metadata, was) && StoredOf(q, stored, was, Touched(q, d))
      modifies this
      ensures AllMeta(q, metadata, now) && StoredOf(q, stored, now, Touched(q, d))
      ensures forall k | old(StoredAt(q, stored, was, k)) :: StoredAt(q, stored, now, k)
      ensures StoredTotals(q, stored, now, Touched(q, d))
      ensures fast <==> old(Eligible(q, metadata, stored, d))
      ensures forall k | k in Touched(q, d) :: k in metadata && metadata[k].safe == fast
    {
      ghost var metadata0, stored0 := metadata, stored;
      fast := Eligible(q, metadata, stored, d);
      if fast {
        metadata := UpdateCounts(q, metadata, d);
        stored := ApplyDelta(q, metadata, stored, d);
      } else {
        metadata := Invalidate(q, metadata, d);
        stored := Recompute(q, stored, d, now);
      }
      forall k ensures MetaAt(q, metadata, now, k) && (StoredAt(q, stored0, was, k) ==> StoredAt(q, stored, now, k)) {
        assert MetaAt(q, metadata0, was, k);
        if !StoredAt(q, stored0, was, k) {
          UntouchedMeta(q, was, now, d, k);
        } else if fast {
          FastPath(q, metadata0, stored0, was, now, d, k);
        } else {
          SlowPath(q, metadata0, stored0, was, now, d, k);
        }
      }
      forall k | k in Touched(q, d)
        ensures k in stored ==> ShowsTotals(q, now, k, stored[k])
        ensures k in stored <==> ShowsGroup(q, now, k)
      {
        assert StoredAt(q, stored0, was, k) && StoredAt(q, stored, now, k);
        FreshTotals(q, now, k);
        PlainTotals(q, now, k);
      }
      if fast {
        forall k | k in Touched(q, d) ensures k in metadata && metadata[k].safe {
          UpdatedMeta(q, metadata0, stored0, was, now, d, k);
        }
      }
    }
  }

  /** Initial metadata, read off the input once. */
  function Measured(q: Query, input: Bag): map<Row, Meta> {
    map k | k in Touched(q, input) ::
      Meta(Count(q, input, k) <= SAFE && SmallRows(q, input, k),
           seq(|q.values|, i requires 0 <= i < |q.values| => NonNull(q, input, i, k)))
  }

  predicate SmallRows(q: Query, input: Bag, k: Row) {
    forall j | 0 <= j < |input| && KeyOf(q, input[j].row) == k :: SmallRow(q, input[j].row)
  }

  lemma MeasuredMeta(q: Query, input: Bag)
    requires Positive(input)
    ensures AllMeta(q, Measured(q, input), input)
    ensures forall k | k in Measured(q, input) ::
              Measured(q, input)[k].safe <==>
              Count(q, input, k) <= SAFE && forall x | Net(input, x) > 0 && KeyOf(q, x) == k :: SmallRow(q, x)
  {
    forall k ensures MetaAt(q, Measured(q, input), input, k) {
      if k !in Touched(q, input) {
        UntouchedGroup(q, input, k);
      }
      InitiallySmall(q, input, k);
    }
    forall k | k in Measured(q, input) ensures
        Measured(q, input)[k].safe <==>
        Count(q, input, k) <= SAFE && forall x | Net(input, x) > 0 && KeyOf(q, x) == k :: SmallRow(q, x)
    {
      InitiallySmall(q, input, k);
    }
  }

  /** Metadata does not depend on how the input's copies are split into rows. */
  lemma MetaSame(q: Query, metadata: map<Row, Meta>, was: Bag, now: Bag)
    requires Positive(was) && Same(was, now) && AllMeta(q, metadata, was)
    ensures AllMeta(q, metadata, now)
  {
    forall k ensures MetaAt(q, metadata, now, k) {
      assert MetaAt(q, metadata, was, k);
      UntouchedMeta(q, was, now, [], k);
    }
  }

  lemma InitiallySmall(q: Query, input: Bag, k: Row)
    requires Positive(input)
    ensures SmallRows(q, input, k) <==> forall x | Net(input, x) > 0 && KeyOf(q, x) == k :: SmallRow(q, x)
  {
    forall x ensures Net(input, x) > 0 <==> x in RowsOf(input) { NetPositive(input, x); }
    forall j | 0 <= j < |input| ensures input[j].row in RowsOf(input) {
      assert RowsOf(input)[j] == input[j].row;
    }
  }
}

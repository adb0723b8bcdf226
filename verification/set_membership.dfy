/** Persistent support counts of UNION and DISTINCT: one row per equality key,
    with its counts on both sides and a representative among the input rows. */
module SetMembership {
  import opened Rows
  import opened Bags

  /** `__left`, `__right` and the representative's cells; `__n` is their sum. */
  datatype Support = Support(row: Row, left: int, right: int)

  type State = map<Row, Support>

  datatype Change = Change(row: Row, m: int, side: nat)

  /** `key` folds collation and numeric equality; `exact` orders rows by their
      storage classes and bits. */
  datatype Order = Order(key: Row -> Row, exact: (Row, Row) -> bool)

  // ------------------------------------------------------------------- support

  /** The copies of one key. */
  function Copies(key: Row -> Row, s: Bag, k: Row): int {
    WSum(s, x => if key(x) == k then 1 else 0)
  }

  /** The stored row of one key describes the inputs exactly. */
  ghost predicate FaithfulAt(key: Row -> Row, state: State, l: Bag, r: Bag, k: Row) {
    && (k in state <==> Copies(key, l, k) + Copies(key, r, k) > 0)
    && (k in state ==>
          && state[k].left == Copies(key, l, k)
          && state[k].right == Copies(key, r, k)
          && IsRepresentative(key, l, r, k, state[k].row))
  }

  /** A current input row of the key, from the left whenever the left has one. */
  ghost predicate IsRepresentative(key: Row -> Row, l: Bag, r: Bag, k: Row, row: Row) {
    key(row) == k && if Copies(key, l, k) > 0 then Net(l, row) > 0 else Net(r, row) > 0
  }

  ghost predicate Faithful(key: Row -> Row, state: State, l: Bag, r: Bag) {
    forall k :: FaithfulAt(key, state, l, r, k)
  }

  /** How often the node's output shows `x`. */
  function Shown(key: Row -> Row, state: State, x: Row): int {
    var k := key(x);
    if k in state && state[k].left + state[k].right > 0 && state[k].row == x then 1 else 0
  }

  /** Every copy of a row of the key counts once, and nothing else does. */
  lemma AddedCopies(key: Row -> Row, s: Bag, x: Row, m: int, k: Row)
    ensures Copies(key, [], k) == 0
    ensures Copies(key, s + [Weighted(x, m)], k) == Copies(key, s, k) + if key(x) == k then m else 0
  {
    WSumAppend(s, [Weighted(x, m)], x => if key(x) == k then 1 else 0);
    assert [Weighted(x, m)][1..] == [];
  }

  /** A row with copies gives its key copies, and conversely. */
  lemma {:induction false} CopiesPositive(key: Row -> Row, s: Bag, k: Row)
    requires Positive(s)
    ensures Copies(key, s, k) >= 0
    ensures Copies(key, s, k) > 0 <==> exists x :: x in RowsOf(s) && key(x) == k
  {
    if s != [] {
      CopiesPositive(key, s[1..], k);
      assert RowsOf(s)[0] == s[0].row;
      assert forall i | 0 <= i < |s[1..]| :: RowsOf(s)[i + 1] == RowsOf(s[1..])[i];
      assert forall x :: x in RowsOf(s) <==> x == s[0].row || x in RowsOf(s[1..]);
    }
  }

  lemma CopiesOfRow(key: Row -> Row, s: Bag, x: Row)
    requires Positive(s) && Net(s, x) > 0
    ensures Copies(key, s, key(x)) > 0
  {
    NetPositive(s, x);
    CopiesPositive(key, s, key(x));
  }

  // ------------------------------------------------------------------ statements

  function Changes(d: Bag, side: nat): (c: seq<Change>)
    ensures |c| == |d| && forall i | 0 <= i < |d| :: c[i] == Change(d[i].row, d[i].m, side)
  {
    seq(|d|, i requires 0 <= i < |d| => Change(d[i].row, d[i].m, side))
  }

  function KeyedChanges(key: Row -> Row, c: seq<Change>, k: Row): (f: seq<Change>)
    ensures forall x :: x in f <==> x in c && key(x.row) == k
    ensures f == [] <==> !exists x :: x in c && key(x.row) == k
  {
    if c == [] then []
    else
      assert c == [c[0]] + c[1..];
      (if key(c[0].row) == k then [c[0]] else []) + KeyedChanges(key, c[1..], k)
  }

  /** Additions first, the left side first, then the exact order. */
  predicate Ranks(exact: (Row, Row) -> bool, a: Change, b: Change) {
    if (a.m <= 0) != (b.m <= 0) then b.m <= 0
    else if a.side != b.side then a.side < b.side
    else exact(a.row, b.row)
  }

  /** The row ranked first in its partition. */
  function First(exact: (Row, Row) -> bool, c: seq<Change>): (f: Change)
    requires c != []
    ensures f in c
    ensures (exists x :: x in c && x.m > 0) ==> f.m > 0
    ensures (exists x :: x in c && x.m > 0 && x.side == 0) ==> f.m > 0 && f.side == 0
  {
    if |c| == 1 then c[0]
    else
      var rest := First(exact, c[1..]);
      assert c == [c[0]] + c[1..];
      if Ranks(exact, rest, c[0]) then rest else c[0]
  }

  function Touched(key: Row -> Row, c: seq<Change>): (keys: seq<Row>)
    ensures NoDuplicates(keys)
    ensures forall k :: k in keys <==> exists x :: x in c && key(x.row) == k
  {
    var all := seq(|c|, i requires 0 <= i < |c| => key(c[i].row));
    assert forall i | 0 <= i < |c| :: c[i] in c && all[i] == key(c[i].row);
    assert forall x | x in c :: exists i :: 0 <= i < |c| && c[i] == x && all[i] == key(x.row);
    Distinct(all)
  }

  /** Upsert the counts: a new key takes the row ranked first, a key whose left
      support begins takes it too, other keys keep their representative. */
  function Upsert(o: Order, state: State, dl: Bag, dr: Bag): State {
    var c := Changes(dl, 0) + Changes(dr, 1);
    var touched := Touched(o.key, c);
    map k | k in state.Keys + (set t | t in touched) :: Upserted(o, state, dl, dr, k)
  }

  function Upserted(o: Order, state: State, dl: Bag, dr: Bag, k: Row): Support
    requires k in state || k in Touched(o.key, Changes(dl, 0) + Changes(dr, 1))
  {
    var c := KeyedChanges(o.key, Changes(dl, 0) + Changes(dr, 1), k);
    var left, right := Copies(o.key, dl, k), Copies(o.key, dr, k);
    if c == [] then
      (if k in state then state[k] else Support([], 0, 0))
    else if k !in state then Support(First(o.exact, c).row, left, right)
    else Support(if state[k].left == 0 && left > 0 then First(o.exact, c).row else state[k].row,
                 state[k].left + left, state[k].right + right)
  }

  /** Above this SQLite's integer sum becomes a REAL. */
  const MAX_INTEGER: int := 0x7FFF_FFFF_FFFF_FFFF

  predicate IsCount(n: int) {
    0 <= n <= MAX_INTEGER
  }

  /** A touched count left the domain of counts: negative, or no integer any more. */
  predicate Bad(state: State, touched: seq<Row>) {
    exists k :: k in touched && BadAt(state, k)
  }

  predicate BadAt(state: State, k: Row) {
    k in state && !(IsCount(state[k].left) && IsCount(state[k].right) && IsCount(state[k].left + state[k].right))
  }

  /** Some stored representative is exactly a retracted row. */
  predicate RepresentativeRemoved(key: Row -> Row, state: State, c: seq<Change>) {
    exists i :: 0 <= i < |c| && c[i].m < 0 && Retracts(key, state, c[i].row)
  }

  predicate Retracts(key: Row -> Row, state: State, row: Row) {
    key(row) in state && state[key(row)].left + state[key(row)].right > 0 && state[key(row)].row == row
  }

  function KeyedRows(key: Row -> Row, rows: seq<Row>, k: Row): (f: seq<Row>)
    ensures forall x :: x in f <==> x in rows && key(x) == k
    ensures f == [] <==> !exists x :: x in rows && key(x) == k
  {
    if rows == [] then []
    else
      assert rows == [rows[0]] + rows[1..];
      (if key(rows[0]) == k then [rows[0]] else []) + KeyedRows(key, rows[1..], k)
  }

  function Least(exact: (Row, Row) -> bool, rows: seq<Row>): (x: Row)
    requires rows != []
    ensures x in rows
  {
    if |rows| == 1 then rows[0]
    else
      var rest := Least(exact, rows[1..]);
      assert rows == [rows[0]] + rows[1..];
      if exact(rest, rows[0]) then rest else rows[0]
  }

  /** The materialized row of a key: the left side wins, then the least exact row. */
  function Materialized(o: Order, l: Bag, r: Bag, k: Row): Row {
    var left, right := KeyedRows(o.key, RowsOf(l), k), KeyedRows(o.key, RowsOf(r), k);
    if left != [] then Least(o.exact, left)
    else if right != [] then Least(o.exact, right)
    else []
  }

  /** `exact` orders any two rows, and goes on over a third. */
  ghost predicate Orders(exact: (Row, Row) -> bool) {
    && (forall x, y :: exact(x, y) || exact(y, x))
    && (forall x, y, z | exact(x, y) && exact(y, z) :: exact(x, z))
  }

  lemma {:induction false} LeastIsLeast(exact: (Row, Row) -> bool, rows: seq<Row>)
    requires rows != [] && Orders(exact)
    ensures forall x | x in rows :: exact(Least(exact, rows), x)
  {
    if |rows| > 1 {
      LeastIsLeast(exact, rows[1..]);
      assert rows == [rows[0]] + rows[1..];
    }
  }

  /** Of the rows of a key the materialization takes the least in exact order, from the
      left side whenever the left has one. */
  lemma MaterializedLeast(o: Order, l: Bag, r: Bag, k: Row, x: Row)
    requires Orders(o.exact) && o.key(x) == k
    requires x in RowsOf(l) || (x in RowsOf(r) && forall y | y in RowsOf(l) :: o.key(y) != k)
    ensures o.exact(Materialized(o, l, r, k), x) && o.key(Materialized(o, l, r, k)) == k
    ensures Materialized(o, l, r, k) in if x in RowsOf(l) then RowsOf(l) else RowsOf(r)
  {
    var left, right := KeyedRows(o.key, RowsOf(l), k), KeyedRows(o.key, RowsOf(r), k);
    if left != [] {
      LeastIsLeast(o.exact, left);
    } else {
      LeastIsLeast(o.exact, right);
    }
  }

  /** The changes of a partition that may not come before `f`. */
  predicate NotBefore(exact: (Row, Row) -> bool, f: Change, x: Change) {
    || (f.m > 0 && x.m <= 0)
    || ((f.m > 0 <==> x.m > 0) && (f.side < x.side || (f.side == x.side && exact(f.row, x.row))))
  }

  /** The row ranked first is an addition before a retraction, of the left side before
      the right, and then the least in exact order. */
  lemma {:induction false} FirstIsFirst(exact: (Row, Row) -> bool, c: seq<Change>)
    requires c != [] && Orders(exact)
    ensures forall x | x in c :: NotBefore(exact, First(exact, c), x)
  {
    if |c| > 1 {
      FirstIsFirst(exact, c[1..]);
      assert c == [c[0]] + c[1..];
    }
  }

  /** Recompute the representatives of the touched keys from the current inputs. */
  function Replaced(o: Order, state: State, touched: seq<Row>, l: Bag, r: Bag): State {
    map k | k in state ::
      if k in touched && state[k].left + state[k].right > 0
      then Support(Materialized(o, l, r, k), state[k].left, state[k].right) else state[k]
  }

  function WithoutEmpty(state: State, touched: seq<Row>): State {
    map k | k in state && !(k in touched && state[k].left + state[k].right == 0) :: state[k]
  }

  /** The shown rows of the touched keys. */
  function ShownRows(state: State, touched: seq<Row>): (s: Bag)
    ensures forall i | 0 <= i < |s| :: s[i].m == 1
  {
    if touched == [] then []
    else
      var k := touched[0];
      (if k in state && state[k].left + state[k].right > 0 then [Weighted(state[k].row, 1)] else [])
      + ShownRows(state, touched[1..])
  }

  // ------------------------------------------------------------------- the proof

  /** Every stored representative belongs to its key. */
  ghost predicate KeyedState(key: Row -> Row, state: State) {
    forall k | k in state :: key(state[k].row) == k
  }

  lemma {:induction false} ShownRowsNet(key: Row -> Row, state: State, touched: seq<Row>, x: Row)
    requires KeyedState(key, state) && NoDuplicates(touched)
    ensures Net(ShownRows(state, touched), x) == if key(x) in touched then Shown(key, state, x) else 0
  {
    if touched != [] {
      var k := touched[0];
      var head := if k in state && state[k].left + state[k].right > 0 then [Weighted(state[k].row, 1)] else [];
      NetAppend(head, ShownRows(state, touched[1..]), x);
      ShownRowsNet(key, state, touched[1..], x);
      assert touched == [k] + touched[1..];
    }
  }

  lemma {:induction false} SomeKeyedPositive(key: Row -> Row, d: Bag, k: Row)
    requires Copies(key, d, k) > 0
    ensures exists i :: 0 <= i < |d| && key(d[i].row) == k && d[i].m > 0
  {
    if key(d[0].row) == k && d[0].m > 0 {
    } else {
      SomeKeyedPositive(key, d[1..], k);
      var i :| 0 <= i < |d[1..]| && key(d[1..][i].row) == k && d[1..][i].m > 0;
      assert d[i + 1] == d[1..][i];
    }
  }

  ghost predicate OnlyAdds(d: Bag, x: Row) {
    forall i | 0 <= i < |d| && d[i].row == x :: d[i].m >= 0
  }

  ghost predicate Adds(d: Bag, x: Row) {
    exists i :: 0 <= i < |d| && d[i].row == x && d[i].m > 0
  }

  /** Without a retraction of `x`, its changes only add. */
  lemma {:induction false} NoRetraction(d: Bag, x: Row)
    requires OnlyAdds(d, x)
    ensures Net(d, x) >= 0 && (Adds(d, x) ==> Net(d, x) > 0)
  {
    if d != [] {
      assert OnlyAdds(d[1..], x);
      NoRetraction(d[1..], x);
      if Adds(d, x) {
        var i :| 0 <= i < |d| && d[i].row == x && d[i].m > 0;
        if i > 0 {
          assert d[1..][i - 1] == d[i];
        }
      }
    }
  }

  lemma {:induction false} CopiesAbsent(key: Row -> Row, d: Bag, k: Row)
    requires forall i | 0 <= i < |d| :: key(d[i].row) != k
    ensures Copies(key, d, k) == 0 && forall x | key(x) == k :: Net(d, x) == 0
  {
    if d != [] {
      CopiesAbsent(key, d[1..], k);
    }
  }

  /** The changed bags: what a batch makes of one key's copies. */
  lemma CopiesChange(key: Row -> Row, d: Bag, s: Bag, t: Bag, k: Row)
    requires IsDelta(d, s, t)
    ensures Copies(key, t, k) == Copies(key, s, k) + Copies(key, d, k)
  {
    WSumDelta(d, s, t, x => if key(x) == k then 1 else 0);
  }

  /** Everything known of one batch. */
  ghost predicate Batch(l0: Bag, r0: Bag, l1: Bag, r1: Bag, dl: Bag, dr: Bag) {
    && Positive(l0) && Positive(r0) && Positive(l1) && Positive(r1)
    && IsDelta(dl, l0, l1) && IsDelta(dr, r0, r1)
  }

  function AllChanges(dl: Bag, dr: Bag): seq<Change> {
    Changes(dl, 0) + Changes(dr, 1)
  }

  lemma LeftChange(dl: Bag, dr: Bag, i: nat)
    requires i < |dl|
    ensures Change(dl[i].row, dl[i].m, 0) in AllChanges(dl, dr)
  {
    assert AllChanges(dl, dr)[i] == Change(dl[i].row, dl[i].m, 0);
  }

  lemma RightChange(dl: Bag, dr: Bag, i: nat)
    requires i < |dr|
    ensures Change(dr[i].row, dr[i].m, 1) in AllChanges(dl, dr)
  {
    assert AllChanges(dl, dr)[|dl| + i] == Change(dr[i].row, dr[i].m, 1);
  }

  lemma ChangeSide(dl: Bag, dr: Bag, c: Change)
    requires c in AllChanges(dl, dr)
    ensures c.side <= 1
    ensures c.side == 0 ==> Weighted(c.row, c.m) in dl
    ensures c.side == 1 ==> Weighted(c.row, c.m) in dr
  {
    var i :| 0 <= i < |AllChanges(dl, dr)| && AllChanges(dl, dr)[i] == c;
    if i < |dl| { assert dl[i] == Weighted(c.row, c.m); } else { assert dr[i - |dl|] == Weighted(c.row, c.m); }
  }

  lemma UntouchedKey(key: Row -> Row, dl: Bag, dr: Bag, k: Row)
    requires k !in Touched(key, AllChanges(dl, dr))
    ensures Copies(key, dl, k) == 0 && Copies(key, dr, k) == 0
    ensures forall x | key(x) == k :: Net(dl, x) == 0 && Net(dr, x) == 0
  {
    forall i: nat | i < |dl| ensures key(dl[i].row) != k { LeftChange(dl, dr, i); }
    forall i: nat | i < |dr| ensures key(dr[i].row) != k { RightChange(dl, dr, i); }
    CopiesAbsent(key, dl, k);
    CopiesAbsent(key, dr, k);
  }

  /** The counts of every key after the upsert. */
  lemma UpsertCounts(o: Order, state: State, l0: Bag, r0: Bag, l1: Bag, r1: Bag, dl: Bag, dr: Bag, k: Row)
    requires Batch(l0, r0, l1, r1, dl, dr) && FaithfulAt(o.key, state, l0, r0, k)
    ensures
      var next := Upsert(o, state, dl, dr);
      && (k in next ==> next[k].left == Copies(o.key, l1, k) && next[k].right == Copies(o.key, r1, k))
      && (k !in next ==> Copies(o.key, l1, k) == 0 && Copies(o.key, r1, k) == 0)
      && Copies(o.key, l1, k) >= 0 && Copies(o.key, r1, k) >= 0
  {
    CopiesChange(o.key, dl, l0, l1, k);
    CopiesChange(o.key, dr, r0, r1, k);
    CopiesPositive(o.key, l0, k);
    CopiesPositive(o.key, r0, k);
    CopiesPositive(o.key, l1, k);
    CopiesPositive(o.key, r1, k);
    if k !in Touched(o.key, AllChanges(dl, dr)) {
      UntouchedKey(o.key, dl, dr, k);
      UntouchedUpsert(o, state, dl, dr, k);
    } else {
      TouchedUpsert(o, state, dl, dr, k);
    }
  }

  /** The row ranked first really is on the side it was ranked for. */
  lemma RankedFirst(o: Order, l0: Bag, r0: Bag, l1: Bag, r1: Bag, dl: Bag, dr: Bag, k: Row, row: Row)
    requires Batch(l0, r0, l1, r1, dl, dr)
    requires KeyedChanges(o.key, AllChanges(dl, dr), k) != []
    requires row == First(o.exact, KeyedChanges(o.key, AllChanges(dl, dr), k)).row
    requires NeverRetracted(AllChanges(dl, dr), row)
    requires Copies(o.key, dl, k) > 0 || (Copies(o.key, l1, k) == 0 && Copies(o.key, dr, k) > 0)
    ensures IsRepresentative(o.key, l1, r1, k, row)
  {
    var c := First(o.exact, KeyedChanges(o.key, AllChanges(dl, dr), k));
    RankedSide(o, dl, dr, k);
    ChangeSide(dl, dr, c);
    AddedRow(dl, dr, l0, r0, l1, r1, c);
    if c.side == 0 {
      CopiesOfRow(o.key, l1, row);
    } else {
      CopiesChange(o.key, dl, l0, l1, k);
      CopiesPositive(o.key, l0, k);
    }
  }

  lemma RankedSide(o: Order, dl: Bag, dr: Bag, k: Row)
    requires KeyedChanges(o.key, AllChanges(dl, dr), k) != []
    requires Copies(o.key, dl, k) > 0 || Copies(o.key, dr, k) > 0
    ensures
      var c := First(o.exact, KeyedChanges(o.key, AllChanges(dl, dr), k));
      c.m > 0 && (Copies(o.key, dl, k) > 0 ==> c.side == 0)
  {
    var keyed := KeyedChanges(o.key, AllChanges(dl, dr), k);
    if Copies(o.key, dl, k) > 0 {
      SomeKeyedPositive(o.key, dl, k);
      var i: nat :| i < |dl| && o.key(dl[i].row) == k && dl[i].m > 0;
      LeftChange(dl, dr, i);
      assert Change(dl[i].row, dl[i].m, 0) in keyed;
    } else {
      SomeKeyedPositive(o.key, dr, k);
      var i: nat :| i < |dr| && o.key(dr[i].row) == k && dr[i].m > 0;
      RightChange(dl, dr, i);
      assert Change(dr[i].row, dr[i].m, 1) in keyed;
    }
  }

  /** An addition whose row is not retracted is a current row of its side. */
  lemma AddedRow(dl: Bag, dr: Bag, l0: Bag, r0: Bag, l1: Bag, r1: Bag, c: Change)
    requires Batch(l0, r0, l1, r1, dl, dr) && c in AllChanges(dl, dr) && c.m > 0
    requires NeverRetracted(AllChanges(dl, dr), c.row)
    ensures c.side == 0 ==> Net(l1, c.row) > 0
    ensures c.side == 1 ==> Net(r1, c.row) > 0
  {
    KeptRow(dl, dr, l0, r0, l1, r1, c.row);
    ChangeSide(dl, dr, c);
    if c.side == 0 {
      var i :| 0 <= i < |dl| && dl[i] == Weighted(c.row, c.m);
      NetPositive(l0, c.row);
    } else {
      var i :| 0 <= i < |dr| && dr[i] == Weighted(c.row, c.m);
      NetPositive(r0, c.row);
    }
  }

  lemma KeptRow(dl: Bag, dr: Bag, l0: Bag, r0: Bag, l1: Bag, r1: Bag, row: Row)
    requires Batch(l0, r0, l1, r1, dl, dr) && NeverRetracted(AllChanges(dl, dr), row)
    ensures Net(l1, row) >= Net(l0, row) && Net(r1, row) >= Net(r0, row)
    ensures Adds(dl, row) ==> Net(dl, row) > 0
    ensures Adds(dr, row) ==> Net(dr, row) > 0
  {
    OnlyAddsOnSides(dl, dr, row);
    KeptSide(dl, l0, l1, row);
    KeptSide(dr, r0, r1, row);
  }

  lemma KeptSide(d: Bag, s: Bag, t: Bag, row: Row)
    requires IsDelta(d, s, t) && OnlyAdds(d, row)
    ensures Net(t, row) >= Net(s, row) && (Adds(d, row) ==> Net(d, row) > 0)
  {
    NoRetraction(d, row);
  }

  ghost predicate NeverRetracted(c: seq<Change>, row: Row) {
    forall x | x in c && x.row == row :: x.m >= 0
  }

  lemma OnlyAddsOnSides(dl: Bag, dr: Bag, row: Row)
    requires NeverRetracted(AllChanges(dl, dr), row)
    ensures OnlyAdds(dl, row) && OnlyAdds(dr, row)
  {
    forall i: nat | i < |dl| && dl[i].row == row ensures dl[i].m >= 0 { LeftChange(dl, dr, i); }
    forall i: nat | i < |dr| && dr[i].row == row ensures dr[i].m >= 0 { RightChange(dl, dr, i); }
  }

  lemma UntouchedUpsert(o: Order, state: State, dl: Bag, dr: Bag, k: Row)
    requires k !in Touched(o.key, AllChanges(dl, dr))
    ensures k in Upsert(o, state, dl, dr) <==> k in state
    ensures k in state ==> Upsert(o, state, dl, dr)[k] == state[k]
  {
    assert KeyedChanges(o.key, AllChanges(dl, dr), k) == [];
  }

  lemma TouchedUpsert(o: Order, state: State, dl: Bag, dr: Bag, k: Row)
    requires k in Touched(o.key, AllChanges(dl, dr))
    ensures KeyedChanges(o.key, AllChanges(dl, dr), k) != [] && k in Upsert(o, state, dl, dr)
    ensures
      var first := First(o.exact, KeyedChanges(o.key, AllChanges(dl, dr), k)).row;
      && Upsert(o, state, dl, dr)[k].left == (if k in state then state[k].left else 0) + Copies(o.key, dl, k)
      && Upsert(o, state, dl, dr)[k].right == (if k in state then state[k].right else 0) + Copies(o.key, dr, k)
      && Upsert(o, state, dl, dr)[k].row ==
         (if k !in state || (state[k].left == 0 && Copies(o.key, dl, k) > 0) then first else state[k].row)
  {
  }

  lemma MaintainedValue(o: Order, state: State, l1: Bag, r1: Bag, dl: Bag, dr: Bag, k: Row)
    ensures
      var c := AllChanges(dl, dr);
      var next := Upsert(o, state, dl, dr);
      var touched := k in Touched(o.key, c);
      var last := Maintained(o, state, l1, r1, dl, dr);
      && (k in last <==> k in next && !(touched && next[k].left + next[k].right == 0))
      && (k in last ==> last[k].left == next[k].left && last[k].right == next[k].right)
      && (k in last ==>
           last[k].row == (if RepresentativeRemoved(o.key, next, c) && touched && next[k].left + next[k].right > 0
           then Materialized(o, l1, r1, k) else next[k].row))
  {
  }

  /** When no stored representative was retracted, the upserted rows represent
      the current inputs. */
  lemma UpsertRepresents(o: Order, state: State, l0: Bag, r0: Bag, l1: Bag, r1: Bag, dl: Bag, dr: Bag, k: Row)
    requires Batch(l0, r0, l1, r1, dl, dr) && FaithfulAt(o.key, state, l0, r0, k)
    requires !RepresentativeRemoved(o.key, Upsert(o, state, dl, dr), AllChanges(dl, dr))
    requires Copies(o.key, l1, k) + Copies(o.key, r1, k) > 0 && k in Touched(o.key, AllChanges(dl, dr))
    ensures IsRepresentative(o.key, l1, r1, k, Upsert(o, state, dl, dr)[k].row)
  {
    var c := AllChanges(dl, dr);
    var next := Upsert(o, state, dl, dr);
    UpsertCounts(o, state, l0, r0, l1, r1, dl, dr, k);
    CopiesChange(o.key, dl, l0, l1, k);
    CopiesChange(o.key, dr, r0, r1, k);
    CopiesPositive(o.key, l0, k);
    CopiesPositive(o.key, r0, k);
    TouchedUpsert(o, state, dl, dr, k);
    assert o.key(next[k].row) == k;
    NotRetracted(o.key, next, c, k);
    if k !in state || (state[k].left == 0 && Copies(o.key, dl, k) > 0) {
      RankedFirst(o, l0, r0, l1, r1, dl, dr, k, next[k].row);
    } else {
      KeptRepresents(o.key, l0, r0, l1, r1, dl, dr, k, state[k].row);
    }
  }

  /** A representative that is not retracted stays one, unless left support begins. */
  lemma KeptRepresents(key: Row -> Row, l0: Bag, r0: Bag, l1: Bag, r1: Bag, dl: Bag, dr: Bag, k: Row, row: Row)
    requires Batch(l0, r0, l1, r1, dl, dr) && IsRepresentative(key, l0, r0, k, row)
    requires NeverRetracted(AllChanges(dl, dr), row)
    requires Copies(key, l0, k) > 0 || Copies(key, l1, k) == 0
    ensures IsRepresentative(key, l1, r1, k, row)
  {
    KeptRow(dl, dr, l0, r0, l1, r1, row);
    if Copies(key, l0, k) > 0 {
      CopiesOfRow(key, l1, row);
    }
  }

  lemma NotRetracted(key: Row -> Row, state: State, c: seq<Change>, k: Row)
    requires !RepresentativeRemoved(key, state, c) && k in state && state[k].left + state[k].right > 0
    requires key(state[k].row) == k
    ensures NeverRetracted(c, state[k].row)
  {
    forall x | x in c && x.row == state[k].row ensures x.m >= 0 {
      var i :| 0 <= i < |c| && c[i] == x;
      assert Retracts(key, state, c[i].row);
    }
  }

  /** The materialized row represents its key in the current inputs. */
  lemma MaterializedRepresents(o: Order, l: Bag, r: Bag, k: Row)
    requires Positive(l) && Positive(r) && Copies(o.key, l, k) + Copies(o.key, r, k) > 0
    ensures IsRepresentative(o.key, l, r, k, Materialized(o, l, r, k))
  {
    CopiesPositive(o.key, l, k);
    CopiesPositive(o.key, r, k);
    var row := Materialized(o, l, r, k);
    if Copies(o.key, l, k) > 0 {
      var x :| x in RowsOf(l) && o.key(x) == k;
      assert x in KeyedRows(o.key, RowsOf(l), k);
    } else {
      assert KeyedRows(o.key, RowsOf(l), k) == [];
      var x :| x in RowsOf(r) && o.key(x) == k;
      assert x in KeyedRows(o.key, RowsOf(r), k);
    }
    NetPositive(l, row);
    NetPositive(r, row);
  }

  /** The state after the recalculation, if any, and the sweep of empty keys. */
  lemma MaintainedFaithful(o: Order, state: State, l0: Bag, r0: Bag, l1: Bag, r1: Bag, dl: Bag, dr: Bag)
    requires Batch(l0, r0, l1, r1, dl, dr) && Faithful(o.key, state, l0, r0)
    ensures Faithful(o.key, Maintained(o, state, l1, r1, dl, dr), l1, r1)
  {
    forall k ensures FaithfulAt(o.key, Maintained(o, state, l1, r1, dl, dr), l1, r1, k) {
      MaintainedAt(o, state, l0, r0, l1, r1, dl, dr, k);
    }
  }

  function Maintained(o: Order, state: State, l1: Bag, r1: Bag, dl: Bag, dr: Bag): State {
    var c := AllChanges(dl, dr);
    var touched := Touched(o.key, c);
    var next := Upsert(o, state, dl, dr);
    WithoutEmpty(Recalculated(o, next, l1, r1, c), touched)
  }

  /** The stored rows, with representatives recomputed when one was retracted. */
  function Recalculated(o: Order, state: State, l1: Bag, r1: Bag, c: seq<Change>): (next: State)
    ensures next.Keys == state.Keys
    ensures forall k | k in state :: next[k].left == state[k].left && next[k].right == state[k].right
    ensures forall k | k in state :: next[k].row == RecalculatedRow(o, state, l1, r1, c, k)
  {
    if RepresentativeRemoved(o.key, state, c) then Replaced(o, state, Touched(o.key, c), l1, r1) else state
  }

  function RecalculatedRow(o: Order, state: State, l1: Bag, r1: Bag, c: seq<Change>, k: Row): Row
    requires k in state
  {
    if RepresentativeRemoved(o.key, state, c) && k in Touched(o.key, c) && state[k].left + state[k].right > 0
    then Materialized(o, l1, r1, k) else state[k].row
  }

  lemma MaintainedAt(o: Order, state: State, l0: Bag, r0: Bag, l1: Bag, r1: Bag, dl: Bag, dr: Bag, k: Row)
    requires Batch(l0, r0, l1, r1, dl, dr) && FaithfulAt(o.key, state, l0, r0, k)
    ensures FaithfulAt(o.key, Maintained(o, state, l1, r1, dl, dr), l1, r1, k)
  {
    var c := AllChanges(dl, dr);
    var touched := Touched(o.key, c);
    UpsertCounts(o, state, l0, r0, l1, r1, dl, dr, k);
    MaintainedValue(o, state, l1, r1, dl, dr, k);
    if k !in touched {
      UntouchedStays(o, state, l0, r0, l1, r1, dl, dr, k);
    } else if Copies(o.key, l1, k) + Copies(o.key, r1, k) > 0 {
      if RepresentativeRemoved(o.key, Upsert(o, state, dl, dr), c) {
        MaterializedRepresents(o, l1, r1, k);
      } else {
        UpsertRepresents(o, state, l0, r0, l1, r1, dl, dr, k);
      }
    }
  }

  lemma UntouchedStays(o: Order, state: State, l0: Bag, r0: Bag, l1: Bag, r1: Bag, dl: Bag, dr: Bag, k: Row)
    requires Batch(l0, r0, l1, r1, dl, dr) && FaithfulAt(o.key, state, l0, r0, k)
    requires k !in Touched(o.key, AllChanges(dl, dr))
    ensures FaithfulAt(o.key, Maintained(o, state, l1, r1, dl, dr), l1, r1, k)
    ensures k in Maintained(o, state, l1, r1, dl, dr) <==> k in state
    ensures k in state ==> Maintained(o, state, l1, r1, dl, dr)[k] == state[k]
  {
    UntouchedKey(o.key, dl, dr, k);
    CopiesChange(o.key, dl, l0, l1, k);
    CopiesChange(o.key, dr, r0, r1, k);
    UntouchedUpsert(o, state, dl, dr, k);
    MaintainedValue(o, state, l1, r1, dl, dr, k);
  }

  // ------------------------------------------------------------------- one batch

  /** What the node emits over the touched keys is the change of its shown rows. */
  lemma EmittedIsChange(o: Order, state: State, l0: Bag, r0: Bag, l1: Bag, r1: Bag, dl: Bag, dr: Bag, before: Bag,
                        after: Bag)
    requires Batch(l0, r0, l1, r1, dl, dr) && Faithful(o.key, state, l0, r0)
    requires before == ShownRows(state, Touched(o.key, AllChanges(dl, dr)))
    requires after == ShownRows(Maintained(o, state, l1, r1, dl, dr), Touched(o.key, AllChanges(dl, dr)))
    ensures forall x ::
              Net(Consolidate(after + Negated(before)), x) ==
              Shown(o.key, Maintained(o, state, l1, r1, dl, dr), x) - Shown(o.key, state, x)
  {
    var touched := Touched(o.key, AllChanges(dl, dr));
    var last := Maintained(o, state, l1, r1, dl, dr);
    MaintainedFaithful(o, state, l0, r0, l1, r1, dl, dr);
    FaithfulKeyed(o.key, state, l0, r0);
    FaithfulKeyed(o.key, last, l1, r1);
    ConsolidateSame(after + Negated(before));
    forall x ensures Net(Consolidate(after + Negated(before)), x) == Shown(o.key, last, x) - Shown(o.key, state, x) {
      ShownRowsNet(o.key, state, touched, x);
      ShownRowsNet(o.key, last, touched, x);
      NetAppend(after, Negated(before), x);
      NetNegated(before, x);
      if o.key(x) !in touched {
        UntouchedShown(o, state, l0, r0, l1, r1, dl, dr, x);
      }
    }
  }

  lemma UntouchedShown(o: Order, state: State, l0: Bag, r0: Bag, l1: Bag, r1: Bag, dl: Bag, dr: Bag, x: Row)
    requires Batch(l0, r0, l1, r1, dl, dr) && Faithful(o.key, state, l0, r0)
    requires o.key(x) !in Touched(o.key, AllChanges(dl, dr))
    ensures Shown(o.key, Maintained(o, state, l1, r1, dl, dr), x) == Shown(o.key, state, x)
  {
    assert FaithfulAt(o.key, state, l0, r0, o.key(x));
    UntouchedStays(o, state, l0, r0, l1, r1, dl, dr, o.key(x));
  }

  lemma FaithfulKeyed(key: Row -> Row, state: State, l: Bag, r: Bag)
    requires Faithful(key, state, l, r)
    ensures KeyedState(key, state)
  {
    forall k | k in state ensures key(state[k].row) == k {
      assert FaithfulAt(key, state, l, r, k);
    }
  }

  /** Some touched key has more copies in the current inputs than an integer counts. */
  predicate TooMany(key: Row -> Row, l1: Bag, r1: Bag, touched: seq<Row>) {
    exists k :: k in touched && Copies(key, l1, k) + Copies(key, r1, k) > MAX_INTEGER
  }

  /** The count of one touched key leaves the domain exactly when its copies do. */
  lemma BadAtKey(o: Order, state: State, l0: Bag, r0: Bag, l1: Bag, r1: Bag, dl: Bag, dr: Bag, k: Row)
    requires Batch(l0, r0, l1, r1, dl, dr) && Faithful(o.key, state, l0, r0)
    requires k in Touched(o.key, AllChanges(dl, dr))
    ensures BadAt(Upsert(o, state, dl, dr), k) <==> Copies(o.key, l1, k) + Copies(o.key, r1, k) > MAX_INTEGER
  {
    assert k in Upsert(o, state, dl, dr);
    assert FaithfulAt(o.key, state, l0, r0, k);
    UpsertCounts(o, state, l0, r0, l1, r1, dl, dr, k);
    assert CountedAs(Upsert(o, state, dl, dr), k, Copies(o.key, l1, k), Copies(o.key, r1, k));
  }

  /** On faithful state the domain check fires exactly when a touched key has too many
      copies. */
  lemma BadIsTooMany(o: Order, state: State, l0: Bag, r0: Bag, l1: Bag, r1: Bag, dl: Bag, dr: Bag)
    requires Batch(l0, r0, l1, r1, dl, dr) && Faithful(o.key, state, l0, r0)
    ensures
      var touched := Touched(o.key, AllChanges(dl, dr));
      Bad(Upsert(o, state, dl, dr), touched) <==> TooMany(o.key, l1, r1, touched)
  {
    forall k | k in Touched(o.key, AllChanges(dl, dr))
      ensures BadAt(Upsert(o, state, dl, dr), k) <==> Copies(o.key, l1, k) + Copies(o.key, r1, k) > MAX_INTEGER {
      BadAtKey(o, state, l0, r0, l1, r1, dl, dr, k);
    }
  }

  predicate CountedAs(state: State, k: Row, left: int, right: int) {
    k in state && state[k].left == left >= 0 && state[k].right == right >= 0
  }

  /** The support table of one UNION or DISTINCT node; DISTINCT has an empty
      right side. */
  class SupportTable {
    const order: Order
    var state: State

    constructor (order: Order)
      ensures this.order == order && Faithful(order.key, state, [], [])
    {
      this.order := order;
      state := map[];
    }

    /** Maintain the counts and representatives for one batch and emit the change
        of the shown rows. Current inputs are read only for the fallback. */
    method Drain(dl: Bag, dr: Bag, l1: Bag, r1: Bag, ghost l0: Bag, ghost r0: Bag) returns (ok: bool, out: Bag)
      requires Faithful(order.key, state, l0, r0) && Batch(l0, r0, l1, r1, dl, dr)
      modifies this
      ensures ok <==> !TooMany(order.key, l1, r1, Touched(order.key, AllChanges(dl, dr)))
      ensures ok ==> Faithful(order.key, state, l1, r1)
      ensures ok ==> forall x :: Net(out, x) == Shown(order.key, state, x) - old(Shown(order.key, state, x))
      ensures ok ==> Consolidated(out)
    {
      var c := AllChanges(dl, dr);
      var touched := Touched(order.key, c);
      var before := ShownRows(state, touched);
      BadIsTooMany(order, state, l0, r0, l1, r1, dl, dr);
      state := Upsert(order, state, dl, dr);
      if Bad(state, touched) {
        return false, [];
      }
      if RepresentativeRemoved(order.key, state, c) {
        state := Replaced(order, state, touched, l1, r1);
      }
      state := WithoutEmpty(state, touched);
      var after := ShownRows(state, touched);
      out := Consolidate(after + Negated(before));
      ConsolidateIs(after + Negated(before));
      EmittedIsChange(order, old(state), l0, r0, l1, r1, dl, dr, before, after);
      MaintainedFaithful(order, old(state), l0, r0, l1, r1, dl, dr);
      return true, out;
    }

    /** The rows the node shows now. */
    method Read() returns (s: Bag)
      requires KeyedState(order.key, state)
      ensures Positive(s) && forall x :: Net(s, x) == Shown(order.key, state, x)
    {
      var keys: seq<Row>, rest := [], state.Keys;
      while rest != {}
        invariant rest <= state.Keys && NoDuplicates(keys)
        invariant forall k :: k in keys <==> k in state.Keys && k !in rest
        decreases rest
      {
        var k :| k in rest;
        keys, rest := keys + [k], rest - {k};
      }
      s := ShownRows(state, keys);
      forall x ensures Net(s, x) == Shown(order.key, state, x) {
        ShownRowsNet(order.key, state, keys, x);
      }
    }

    /** Initial population: counts of the complete inputs, joined with the rows
        materialized from them. */
    method Populate(l: Bag, r: Bag) returns (out: Bag)
      requires Positive(l) && Positive(r)
      modifies this
      ensures Faithful(order.key, state, l, r)
      ensures Positive(out) && forall x :: Net(out, x) == Shown(order.key, state, x)
    {
      var keys := Touched(order.key, AllChanges(l, r));
      state := map k | k in keys && Copies(order.key, l, k) + Copies(order.key, r, k) > 0 ::
        Support(Materialized(order, l, r, k), Copies(order.key, l, k), Copies(order.key, r, k));
      out := ShownRows(state, keys);
      forall k ensures FaithfulAt(order.key, state, l, r, k) {
        if Copies(order.key, l, k) + Copies(order.key, r, k) > 0 {
          PopulatedAt(order, l, r, k);
        }
      }
      FaithfulKeyed(order.key, state, l, r);
      forall x ensures Net(out, x) == Shown(order.key, state, x) {
        ShownRowsNet(order.key, state, keys, x);
      }
    }
  }

  lemma PopulatedAt(o: Order, l: Bag, r: Bag, k: Row)
    requires Positive(l) && Positive(r) && Copies(o.key, l, k) + Copies(o.key, r, k) > 0
    ensures k in Touched(o.key, AllChanges(l, r)) && IsRepresentative(o.key, l, r, k, Materialized(o, l, r, k))
  {
    if k !in Touched(o.key, AllChanges(l, r)) {
      UntouchedKey(o.key, l, r, k);
    }
    MaterializedRepresents(o, l, r, k);
  }

  /** With rows as their own keys, the node shows exactly the distinct input rows. */
  lemma ShownIsDistinct(key: Row -> Row, state: State, l: Bag, r: Bag, x: Row)
    requires (forall y :: key(y) == y) && Positive(l) && Positive(r) && Faithful(key, state, l, r)
    ensures Shown(key, state, x) == Net(Weigh(Distinct(RowsOf(l + r)), 1), x)
  {
    assert FaithfulAt(key, state, l, r, x);
    CopiesPositive(key, l, x);
    CopiesPositive(key, r, x);
    NetWeigh(Distinct(RowsOf(l + r)), 1, x);
    assert RowsOf(l + r) == RowsOf(l) + RowsOf(r);
  }

  /** The node never shows two rows of one key, and shows one exactly for the keys
      of its inputs. */
  lemma OneRowPerKey(key: Row -> Row, state: State, l: Bag, r: Bag, k: Row)
    requires Positive(l) && Positive(r) && Faithful(key, state, l, r)
    ensures forall x, y | key(x) == k && key(y) == k && Shown(key, state, x) == 1 && Shown(key, state, y) == 1 :: x == y
    ensures (exists x :: key(x) == k && Shown(key, state, x) == 1) <==> (exists x :: x in RowsOf(l + r) && key(x) == k)
  {
    assert FaithfulAt(key, state, l, r, k);
    CopiesPositive(key, l, k);
    CopiesPositive(key, r, k);
    assert RowsOf(l + r) == RowsOf(l) + RowsOf(r);
    if k in state {
      assert Shown(key, state, state[k].row) == 1;
    }
  }
}

/** A group that shows its key, its count and its sums, in any bag: it is what the
    COUNT/SUM path and the in-place update ask of an output group. */
module SumsOutput {
  import opened Rows
  import opened Bags
  import opened Plans
  import opened Locality
  import opened GroupOutput
  import Aggregate

  /** Key cells, then the count, then the sums. */
  function Show(k: Row, g: Aggregate.Group): Row {
    k + [Integer(g.count)] + g.sums
  }

  function KeyCells(sums: nat, row: Row): Row {
    if |row| > sums then row[..|row| - sums - 1] else []
  }

  function ReadBack(sums: nat, row: Row): Aggregate.Group {
    if |row| > sums && row[|row| - sums - 1].Integer?
    then Aggregate.Group(row[|row| - sums - 1].i, row[|row| - sums..]) else Aggregate.Group(0, [])
  }

  lemma ShowReadBack(k: Row, g: Aggregate.Group)
    ensures KeyCells(|g.sums|, Show(k, g)) == k && ReadBack(|g.sums|, Show(k, g)) == g
  {
  }

  /** Some bag with these multiplicities. */
  ghost function BagOf(c: map<Row, int>): Bag
    decreases |c|
  {
    if c == map[] then []
    else
      var r :| r in c;
      assert |c - {r}| < |c| by { assert c == (c - {r})[r := c[r]]; }
      [Weighted(r, c[r])] + BagOf(c - {r})
  }

  lemma {:induction false} BagOfNet(c: map<Row, int>, x: Row)
    ensures Net(BagOf(c), x) == if x in c then c[x] else 0
    decreases |c|
  {
    if c != map[] {
      var w, rest := BagOf(c)[0], BagOf(c)[1..];
      assert w.row in c && w.m == c[w.row] && rest == BagOf(c - {w.row});
      assert c == (c - {w.row})[w.row := c[w.row]];
      BagOfNet(c - {w.row}, x);
    }
  }

  lemma {:induction false} BagOfPositive(c: map<Row, int>)
    requires forall x | x in c :: c[x] > 0
    ensures Positive(BagOf(c))
    decreases |c|
  {
    if c != map[] {
      var w, rest := BagOf(c)[0], BagOf(c)[1..];
      assert w.row in c && w.m == c[w.row] && rest == BagOf(c - {w.row});
      assert c == (c - {w.row})[w.row := c[w.row]];
      BagOfPositive(c - {w.row});
    }
  }

  ghost function KeyIn(q: Aggregate.Query, c: map<Row, int>): Row {
    if q.keyless || c == map[] then []
    else
      var r :| r in c;
      q.key(r)
  }

  /** The rows of a group with these contents. */
  ghost function RowsFor(q: Aggregate.Query, c: map<Row, int>): seq<Row> {
    if !q.keyless && c == map[] then [] else [Show(KeyIn(q, c), Aggregate.Fresh(q, BagOf(c), KeyIn(q, c)))]
  }

  ghost function Compiled(q: Aggregate.Query): Kind {
    Plans.Group(q.keyless, q.key, c => RowsFor(q, c), Plain)
  }

  ghost function Described(q: Aggregate.Query): Sums {
    Plans.Sums(q, Show, row => ReadBack(|q.values|, row))
  }

  ghost function Part(q: Aggregate.Query, s: Bag, k: Row): Bag {
    if q.keyless then s else Restrict(s, x => q.key(x) == k)
  }

  lemma PartKey(q: Aggregate.Query, s: Bag, k: Row)
    requires q.keyless ==> k == []
    ensures Contents(Part(q, s, k)) != map[] ==> KeyIn(q, Contents(Part(q, s, k))) == k
  {
    if !q.keyless {
      forall r | r in Contents(Part(q, s, k)) ensures q.key(r) == k {
        NetRestrict(s, x => q.key(x) == k, r);
      }
    }
  }

  /** A group's rows depend on its part of the input only, and on that as a bag. */
  lemma PartFresh(q: Aggregate.Query, s: Bag, k: Row)
    requires Positive(s) && (q.keyless ==> k == [])
    ensures
      var b := BagOf(Contents(Part(q, s, k)));
      Aggregate.Fresh(q, b, k) == Aggregate.Fresh(q, s, k) && (Aggregate.Shows(q, b, k) <==> Aggregate.Shows(q, s, k))
  {
    var part, away := Part(q, s, k), if q.keyless then [] else Restrict(s, x => q.key(x) != k);
    var b := BagOf(Contents(part));
    RestrictRows(s, x => q.key(x) == k);
    RestrictRows(s, x => q.key(x) != k);
    forall x ensures Net(b, x) == Net(part, x) {
      BagOfNet(Contents(part), x);
      if x !in RowsOf(part) { NetAbsent(part, x); }
    }
    forall x | x in Contents(part) ensures Contents(part)[x] > 0 {
      NetPositive(part, x);
    }
    BagOfPositive(Contents(part));
    forall x ensures Net(away, x) == Net(s, x) - Net(b, x) {
      NetRestrict(s, x => q.key(x) == k, x);
      NetRestrict(s, x => q.key(x) != k, x);
    }
    Aggregate.UntouchedFresh(q, map[], b, s, away, k);
  }

  lemma PartShown(q: Aggregate.Query, s: Bag, k: Row)
    requires Positive(s) && !q.keyless
    ensures Contents(Part(q, s, k)) == map[] <==> !Aggregate.Shows(q, s, k)
  {
    PartFresh(q, s, k);
    var c := Contents(Part(q, s, k));
    if c == map[] {
      assert BagOf(c) == [];
    } else if Aggregate.Count(q, s, k) <= 0 {
      Aggregate.CountNonNegative(q, s, k);
      Aggregate.EmptyGroup(q, s, k);
      var r :| r in c;
      NetRestrict(s, x => q.key(x) == k, r);
    }
  }

  /** Every COUNT/SUM query, compiled this way, computes what the fast path assumes. */
  lemma CompiledComputes(q: Aggregate.Query)
    ensures Computes(Compiled(q), Described(q))
  {
    var kind, sums := Compiled(q), Described(q);
    forall k, g: Aggregate.Group | |g.sums| == |q.values| ensures sums.read(sums.show(k, g)) == g {
      ShowReadBack(k, g);
    }
    forall k, s | Positive(s) && (kind.keyless ==> k == []) ensures ShowsSums(kind, sums, k, s) {
      PartKey(q, s, k);
      PartFresh(q, s, k);
      if !q.keyless {
        PartShown(q, s, k);
      }
    }
  }

  /** And shows its keys, one row per group. */
  lemma CompiledShows(q: Aggregate.Query)
    ensures Plainly(Compiled(q), row => KeyCells(|q.values|, row))
  {
    var kind, group := Compiled(q), row => KeyCells(|q.values|, row);
    forall k, s ensures ShowsKey(kind, group, k, s) {
      PartKey(q, s, if q.keyless then [] else k);
      var rows := RowsOfGroup(kind, s, k);
      forall i | 0 <= i < |rows| ensures group(rows[i]) == if kind.keyless then [] else k {
        var c := Contents(Part(q, s, k));
        assert rows == RowsFor(q, c);
        ShowReadBack(KeyIn(q, c), Aggregate.Fresh(q, BagOf(c), KeyIn(q, c)));
      }
    }
  }
}

/** Signed bags as the engine stores them: scratch tables of rows with a weight
    column, not necessarily consolidated. */
module Bags {
  import opened Rows

  datatype Weighted = Weighted(row: Row, m: int)

  type Bag = seq<Weighted>

  /** The signed multiplicity of `r`. */
  function Net(s: Bag, r: Row): int {
    if s == [] then 0 else (if s[0].row == r then s[0].m else 0) + Net(s[1..], r)
  }

  /** The sum of `g` over the bag. */
  function WSum(s: Bag, g: Row -> int): int {
    if s == [] then 0 else s[0].m * g(s[0].row) + WSum(s[1..], g)
  }

  /** Two tables hold the same signed bag. */
  ghost predicate Same(s: Bag, t: Bag) {
    forall r :: Net(s, r) == Net(t, r)
  }

  /** `d` is the change from `s` to `t`. */
  ghost predicate IsDelta(d: Bag, s: Bag, t: Bag) {
    forall r :: Net(d, r) == Net(t, r) - Net(s, r)
  }

  /** Every stored weight counts actual copies. */
  predicate Positive(s: Bag) {
    forall i | 0 <= i < |s| :: s[i].m > 0
  }

  /** Rows that come and go once each. */
  predicate Units(s: Bag) {
    forall i | 0 <= i < |s| :: s[i].m == 1 || s[i].m == -1
  }

  function Negated(s: Bag): Bag {
    if s == [] then [] else [Weighted(s[0].row, -s[0].m)] + Negated(s[1..])
  }

  /** Every row of `rows` with weight `w`. */
  function Weigh(rows: seq<Row>, w: int): (s: Bag)
    ensures |s| == |rows| && forall i | 0 <= i < |s| :: s[i] == Weighted(rows[i], w)
  {
    seq(|rows|, i requires 0 <= i < |rows| => Weighted(rows[i], w))
  }

  predicate NoDuplicates(rows: seq<Row>) {
    forall i, j | 0 <= i < j < |rows| :: rows[i] != rows[j]
  }

  lemma {:induction false} NetAppend(s: Bag, t: Bag, r: Row)
    ensures Net(s + t, r) == Net(s, r) + Net(t, r)
  {
    if s == [] {
      assert s + t == t;
    } else {
      assert (s + t)[1..] == s[1..] + t;
      NetAppend(s[1..], t, r);
    }
  }

  lemma {:induction false} WSumAppend(s: Bag, t: Bag, g: Row -> int)
    ensures WSum(s + t, g) == WSum(s, g) + WSum(t, g)
  {
    if s == [] {
      assert s + t == t;
    } else {
      assert (s + t)[1..] == s[1..] + t;
      WSumAppend(s[1..], t, g);
    }
  }

  lemma {:induction false} NetNegated(s: Bag, r: Row)
    ensures Net(Negated(s), r) == -Net(s, r)
  {
    if s != [] {
      assert Negated(s)[1..] == Negated(s[1..]);
      NetNegated(s[1..], r);
    }
  }

  lemma {:induction false} WSumNegated(s: Bag, g: Row -> int)
    ensures WSum(Negated(s), g) == -WSum(s, g)
  {
    if s != [] {
      assert Negated(s)[1..] == Negated(s[1..]);
      WSumNegated(s[1..], g);
    }
  }

  lemma {:induction false} NetIsWSum(s: Bag, r: Row)
    ensures Net(s, r) == WSum(s, x => if x == r then 1 else 0)
  {
    if s != [] {
      NetIsWSum(s[1..], r);
    }
  }

  lemma {:induction false} WSumExtensional(s: Bag, g: Row -> int, h: Row -> int)
    requires forall i | 0 <= i < |s| :: g(s[i].row) == h(s[i].row)
    ensures WSum(s, g) == WSum(s, h)
  {
    if s != [] {
      WSumExtensional(s[1..], g, h);
    }
  }

  /** `s` without the entries of `r`. */
  function Without(s: Bag, r: Row): (t: Bag)
    ensures |t| <= |s|
    ensures s != [] && s[0].row == r ==> |t| < |s|
  {
    if s == [] then []
    else if s[0].row == r then Without(s[1..], r)
    else [s[0]] + Without(s[1..], r)
  }

  lemma {:induction false} NetWithout(s: Bag, r: Row, x: Row)
    ensures Net(Without(s, r), x) == if x == r then 0 else Net(s, x)
  {
    if s != [] {
      NetWithout(s[1..], r, x);
      if s[0].row != r {
        assert Without(s, r)[1..] == Without(s[1..], r);
      }
    }
  }

  lemma {:induction false} WSumWithout(s: Bag, r: Row, g: Row -> int)
    ensures WSum(s, g) == Net(s, r) * g(r) + WSum(Without(s, r), g)
  {
    if s != [] {
      WSumWithout(s[1..], r, g);
      if s[0].row != r {
        assert Without(s, r)[1..] == Without(s[1..], r);
      } else {
        assert (s[0].m + Net(s[1..], r)) * g(r) == s[0].m * g(r) + Net(s[1..], r) * g(r);
      }
    }
  }

  lemma {:induction false} WSumOfNothing(s: Bag, g: Row -> int)
    requires forall r :: Net(s, r) == 0
    ensures WSum(s, g) == 0
    decreases |s|
  {
    if s != [] {
      var r := s[0].row;
      WSumWithout(s, r, g);
      forall x ensures Net(Without(s, r), x) == 0 {
        NetWithout(s, r, x);
      }
      WSumOfNothing(Without(s, r), g);
    }
  }

  /** A sum over a bag depends only on the signed multiplicities. */
  lemma WSumDelta(d: Bag, s: Bag, t: Bag, g: Row -> int)
    requires IsDelta(d, s, t)
    ensures WSum(d, g) == WSum(t, g) - WSum(s, g)
  {
    var z := d + s + Negated(t);
    forall r ensures Net(z, r) == 0 {
      NetAppend(d + s, Negated(t), r);
      NetAppend(d, s, r);
      NetNegated(t, r);
    }
    WSumOfNothing(z, g);
    WSumAppend(d + s, Negated(t), g);
    WSumAppend(d, s, g);
    WSumNegated(t, g);
  }

  lemma WSumSame(s: Bag, t: Bag, g: Row -> int)
    requires Same(s, t)
    ensures WSum(s, g) == WSum(t, g)
  {
    WSumDelta([], s, t, g);
  }

  // ------------------------------------------------------------------ membership

  function RowsOf(s: Bag): (rows: seq<Row>)
    ensures |rows| == |s| && forall i | 0 <= i < |s| :: rows[i] == s[i].row
  {
    seq(|s|, i requires 0 <= i < |s| => s[i].row)
  }

  lemma {:induction false} NetPositive(s: Bag, r: Row)
    requires Positive(s)
    ensures Net(s, r) >= 0
    ensures Net(s, r) > 0 <==> r in RowsOf(s)
  {
    if s != [] {
      NetPositive(s[1..], r);
      if r in RowsOf(s) && s[0].row != r {
        var i :| 0 <= i < |s| && s[i].row == r;
        assert s[1..][i - 1].row == r;
        assert RowsOf(s[1..])[i - 1] == r;
      }
      if r in RowsOf(s[1..]) {
        var i :| 0 <= i < |s[1..]| && RowsOf(s[1..])[i] == r;
        assert RowsOf(s)[i + 1] == r;
      }
      if s[0].row == r {
        assert RowsOf(s)[0] == r;
      }
    }
  }

  lemma {:induction false} NetAbsent(s: Bag, r: Row)
    requires r !in RowsOf(s)
    ensures Net(s, r) == 0
  {
    if s != [] {
      assert RowsOf(s)[0] == s[0].row;
      forall i | 0 <= i < |s[1..]| ensures RowsOf(s[1..])[i] != r {
        assert RowsOf(s)[i + 1] == RowsOf(s[1..])[i];
      }
      NetAbsent(s[1..], r);
    }
  }

  lemma {:induction false} NetWeigh(rows: seq<Row>, w: int, r: Row)
    requires NoDuplicates(rows)
    ensures Net(Weigh(rows, w), r) == if r in rows then w else 0
  {
    if rows != [] {
      NetWeigh(rows[1..], w, r);
      assert Weigh(rows, w)[1..] == Weigh(rows[1..], w);
      assert rows == [rows[0]] + rows[1..];
    }
  }

  /** `rows` without repetitions. */
  function Distinct(rows: seq<Row>): (d: seq<Row>)
    ensures NoDuplicates(d) && forall r :: r in d <==> r in rows
  {
    if rows == [] then []
    else
      var rest := Distinct(rows[1..]);
      assert rows == [rows[0]] + rows[1..];
      if rows[0] in rest then rest else [rows[0]] + rest
  }

  /** GROUP BY every cell, HAVING sum != 0. */
  function Totals(rows: seq<Row>, s: Bag): (t: Bag)
    ensures forall i | 0 <= i < |t| :: t[i].m == Net(s, t[i].row) && t[i].m != 0 && t[i].row in rows
  {
    if rows == [] then []
    else
      var rest := Totals(rows[1..], s);
      assert rows == [rows[0]] + rows[1..];
      if Net(s, rows[0]) == 0 then rest else [Weighted(rows[0], Net(s, rows[0]))] + rest
  }

  function Consolidate(s: Bag): (t: Bag) {
    Totals(Distinct(RowsOf(s)), s)
  }

  lemma {:induction false} NetTotals(rows: seq<Row>, s: Bag, r: Row)
    requires NoDuplicates(rows)
    ensures Net(Totals(rows, s), r) == if r in rows then Net(s, r) else 0
  {
    if rows != [] {
      NetTotals(rows[1..], s, r);
      assert rows == [rows[0]] + rows[1..];
      if Net(s, rows[0]) != 0 {
        assert Totals(rows, s)[1..] == Totals(rows[1..], s);
      }
    }
  }

  /** Consolidation keeps the signed bag. */
  lemma ConsolidateSame(s: Bag)
    ensures Same(Consolidate(s), s)
  {
    forall r ensures Net(Consolidate(s), r) == Net(s, r) {
      NetTotals(Distinct(RowsOf(s)), s, r);
      if r !in RowsOf(s) {
        NetAbsent(s, r);
      }
    }
  }

  lemma ConsolidateDelta(d: Bag, s: Bag, t: Bag)
    requires IsDelta(d, s, t)
    ensures IsDelta(Consolidate(d), s, t)
  {
    ConsolidateSame(d);
  }

  /** A bag without negative totals consolidates to actual copies. */
  lemma ConsolidatePositive(s: Bag)
    requires forall r :: Net(s, r) >= 0
    ensures Positive(Consolidate(s))
  {
  }

  lemma NoDuplicatesCons(x: Row, rest: seq<Row>)
    requires NoDuplicates(rest) && x !in rest
    ensures NoDuplicates([x] + rest)
    ensures forall y :: y in [x] + rest <==> y == x || y in rest
  {
  }

  lemma TotalsWithin(rows: seq<Row>, z: Bag, x: Row)
    requires x in RowsOf(Totals(rows, z))
    ensures x in rows
  {
    var t := Totals(rows, z);
    var i :| 0 <= i < |RowsOf(t)| && RowsOf(t)[i] == x;
    assert t[i].row == x;
  }

  lemma {:induction false} TotalsUnique(rows: seq<Row>, z: Bag)
    requires NoDuplicates(rows)
    ensures NoDuplicates(RowsOf(Totals(rows, z)))
  {
    if rows != [] {
      var x, rest := rows[0], Totals(rows[1..], z);
      TotalsUnique(rows[1..], z);
      if x in RowsOf(rest) {
        TotalsWithin(rows[1..], z, x);
      }
      NoDuplicatesCons(x, RowsOf(rest));
      assert RowsOf([Weighted(x, Net(z, x))] + rest) == [x] + RowsOf(rest);
    }
  }

  /** Every row once, with its whole multiplicity. */
  ghost predicate Consolidated(out: Bag) {
    NoDuplicates(RowsOf(out)) && forall i | 0 <= i < |out| :: out[i].m == Net(out, out[i].row) != 0
  }

  lemma ConsolidateIs(z: Bag)
    ensures Consolidated(Consolidate(z))
  {
    TotalsUnique(Distinct(RowsOf(z)), z);
    ConsolidateSame(z);
  }
}

/** How many copies of a row each kind of node shows, counted from the copies of
    its inputs' rows: a reference for evaluation that shares no step with it. */
module NodeMeaning {
  import opened Rows
  import opened Bags
  import opened Datalog
  import opened Plans
  import opened Locality
  import opened Meaning

  // ----------------------------------------------------------------------- joins

  /** Every pair of key cells is equal, and none is NULL. */
  predicate Agree(k: Row, l: Row) {
    |k| == |l| && forall i | 0 <= i < |k| :: k[i] != Null && k[i] == l[i]
  }

  predicate Matches(kind: Kind, y: Row, z: Row)
    requires kind.Join?
  {
    Agree(kind.left(y), kind.right(z)) && kind.residual(y + z)
  }

  function Bit(b: bool): int {
    if b then 1 else 0
  }

  /** The row as an outer join pads it: the other side's columns are all NULL. */
  function PaddedRight(y: Row, width: nat): Row {
    y + seq(width, _ => Null)
  }

  function PaddedLeft(width: nat, z: Row): Row {
    seq(width, _ => Null) + z
  }

  predicate MatchesSome(kind: Kind, y: Row, r: Bag)
    requires kind.Join?
  {
    exists z :: z in RowsOf(r) && Matches(kind, y, z)
  }

  predicate SomeMatches(kind: Kind, l: Bag, z: Row)
    requires kind.Join?
  {
    exists y :: y in RowsOf(l) && Matches(kind, y, z)
  }

  /** One for each copy of `z` that makes `x` with `y`. */
  function PairsWith(kind: Kind, y: Row, x: Row): Row -> int
    requires kind.Join?
  {
    z => Bit(Matches(kind, y, z) && y + z == x)
  }

  function PairsOf(kind: Kind, r: Bag, x: Row): Row -> int
    requires kind.Join?
  {
    y => WSum(r, PairsWith(kind, y, x))
  }

  /** Pairs that match, with the product of their multiplicities. */
  function PairCopies(kind: Kind, l: Bag, r: Bag, x: Row): int
    requires kind.Join?
  {
    WSum(l, PairsOf(kind, r, x))
  }

  function LoneLeft(kind: Kind, r: Bag, width: nat, x: Row): Row -> int
    requires kind.Join?
  {
    y => Bit(!MatchesSome(kind, y, r) && PaddedRight(y, width) == x)
  }

  function LoneRight(kind: Kind, l: Bag, width: nat, x: Row): Row -> int
    requires kind.Join?
  {
    z => Bit(!SomeMatches(kind, l, z) && PaddedLeft(width, z) == x)
  }

  function LoneLeftCopies(kind: Kind, l: Bag, r: Bag, width: nat, x: Row): int
    requires kind.Join?
  {
    WSum(l, LoneLeft(kind, r, width, x))
  }

  function LoneRightCopies(kind: Kind, l: Bag, r: Bag, width: nat, x: Row): int
    requires kind.Join?
  {
    WSum(r, LoneRight(kind, l, width, x))
  }

  /** What each mode shows of the pairs, of the rows that match nothing, and of the left
      row itself. */
  function Shown(mode: JoinMode, pairs: int, loneLeft: int, loneRight: int, matched: bool, copies: int): int {
    match mode
    case Inner => pairs
    case LeftOuter => pairs + loneLeft
    case RightOuter => pairs + loneRight
    case FullOuter => pairs + loneLeft + loneRight
    case Semi => if matched then copies else 0
    case Anti => if matched then 0 else copies
  }

  function JoinCopies(kind: Kind, l: Bag, r: Bag, leftWidth: nat, rightWidth: nat, x: Row): int
    requires kind.Join?
  {
    Shown(kind.mode, PairCopies(kind, l, r, x), LoneLeftCopies(kind, l, r, rightWidth, x),
          LoneRightCopies(kind, l, r, leftWidth, x), MatchesSome(kind, x, r), Net(l, x))
  }

  lemma JoinsMatches(kind: Kind, y: Row, z: Row)
    requires kind.Join?
    ensures Joins(kind, y, z) <==> Matches(kind, y, z)
  {
    var k, l := kind.left(y), kind.right(z);
    if k == l && Null !in k {
      assert forall i | 0 <= i < |k| :: k[i] in k;
    }
    if Agree(k, l) {
      assert k == l;
    }
  }

  lemma MatchedMatches(kind: Kind, l: Bag, r: Bag)
    requires kind.Join?
    ensures forall y :: LeftMatched(kind, y, r) <==> MatchesSome(kind, y, r)
    ensures forall z :: RightMatched(kind, l, z) <==> SomeMatches(kind, l, z)
  {
    forall y ensures LeftMatched(kind, y, r) <==> MatchesSome(kind, y, r) {
      forall z ensures Joins(kind, y, z) <==> Matches(kind, y, z) { JoinsMatches(kind, y, z); }
      if i :| 0 <= i < |r| && Joins(kind, y, r[i].row) { assert RowsOf(r)[i] in RowsOf(r); }
      if z :| z in RowsOf(r) && Matches(kind, y, z) {
        var i :| 0 <= i < |r| && RowsOf(r)[i] == z;
      }
    }
    forall z ensures RightMatched(kind, l, z) <==> SomeMatches(kind, l, z) {
      forall y ensures Joins(kind, y, z) <==> Matches(kind, y, z) { JoinsMatches(kind, y, z); }
      if i :| 0 <= i < |l| && Joins(kind, l[i].row, z) { assert RowsOf(l)[i] in RowsOf(l); }
      if y :| y in RowsOf(l) && Matches(kind, y, z) {
        var i :| 0 <= i < |l| && RowsOf(l)[i] == y;
      }
    }
  }

  lemma InnerCopies(kind: Kind, l: Bag, r: Bag, x: Row)
    requires kind.Join?
    ensures Net(EvalInner(kind, l, r), x) == PairCopies(kind, l, r, x)
  {
    NetInner(kind, l, r, x);
    var g := y => WSum(r, z => PairIs(kind, y, z, x));
    forall y ensures g(y) == PairsOf(kind, r, x)(y) {
      var h := z => PairIs(kind, y, z, x);
      forall z ensures h(z) == PairsWith(kind, y, x)(z) { JoinsMatches(kind, y, z); }
      WSumExtensional(r, h, PairsWith(kind, y, x));
    }
    WSumExtensional(l, g, PairsOf(kind, r, x));
  }

  lemma LoneLeftNet(kind: Kind, l: Bag, r: Bag, rw: nat, x: Row)
    requires kind.Join?
    ensures Net(EvalMap(y => y + Nulls(rw), y => !LeftMatched(kind, y, r), l), x) ==
              WSum(l, LoneLeft(kind, r, rw, x))
  {
    MatchedMatches(kind, l, r);
    var project, accepts := (y: Row) => y + Nulls(rw), y => !LeftMatched(kind, y, r);
    NetEvalMap(project, accepts, l, x);
    var g := y => if accepts(y) && project(y) == x then 1 else 0;
    forall y ensures g(y) == LoneLeft(kind, r, rw, x)(y) {
      assert Nulls(rw) == seq(rw, _ => Null);
    }
    WSumExtensional(l, g, LoneLeft(kind, r, rw, x));
  }

  lemma LoneRightNet(kind: Kind, l: Bag, r: Bag, lw: nat, x: Row)
    requires kind.Join?
    ensures Net(EvalMap(z => Nulls(lw) + z, z => !RightMatched(kind, l, z), r), x) ==
              WSum(r, LoneRight(kind, l, lw, x))
  {
    MatchedMatches(kind, l, r);
    var project, accepts := (z: Row) => Nulls(lw) + z, z => !RightMatched(kind, l, z);
    NetEvalMap(project, accepts, r, x);
    var g := z => if accepts(z) && project(z) == x then 1 else 0;
    forall z ensures g(z) == LoneRight(kind, l, lw, x)(z) {
      assert Nulls(lw) == seq(lw, _ => Null);
    }
    WSumExtensional(r, g, LoneRight(kind, l, lw, x));
  }

  lemma HalfNet(kind: Kind, l: Bag, r: Bag, x: Row)
    requires kind.Join?
    ensures Net(EvalMap(y => y, y => LeftMatched(kind, y, r), l), x) ==
              if MatchesSome(kind, x, r) then Net(l, x) else 0
    ensures Net(EvalMap(y => y, y => !LeftMatched(kind, y, r), l), x) ==
              if MatchesSome(kind, x, r) then 0 else Net(l, x)
  {
    MatchedMatches(kind, l, r);
    FilterNet(y => LeftMatched(kind, y, r), l, x);
    FilterNet(y => !LeftMatched(kind, y, r), l, x);
  }

  /** What a join shows of a row. */
  lemma EvaluatedJoin(kind: Kind, l: Bag, r: Bag, lw: nat, rw: nat, x: Row)
    requires kind.Join?
    ensures Net(EvalJoin(kind, l, r, lw, rw), x) == JoinCopies(kind, l, r, lw, rw, x)
  {
    JoinNet(kind, l, r, lw, rw, x);
    InnerCopies(kind, l, r, x);
    LoneLeftNet(kind, l, r, rw, x);
    LoneRightNet(kind, l, r, lw, x);
    HalfNet(kind, l, r, x);
  }

  // -------------------------------------------------------------------- NULL keys

  predicate KeepsLeft(mode: JoinMode) {
    mode.LeftOuter? || mode.FullOuter?
  }

  predicate KeepsRight(mode: JoinMode) {
    mode.RightOuter? || mode.FullOuter?
  }

  lemma {:induction false} MapSnoc(project: Row -> Row, accepts: Row -> bool, s: Bag, w: Weighted)
    ensures EvalMap(project, accepts, s + [w]) ==
              EvalMap(project, accepts, s) + if accepts(w.row) then [Weighted(project(w.row), w.m)] else []
  {
    if s == [] {
      assert s + [w] == [w] && [w][1..] == [];
    } else {
      assert (s + [w])[1..] == s[1..] + [w];
      MapSnoc(project, accepts, s[1..], w);
    }
  }

  lemma {:induction false} MapAlike(project: Row -> Row, accepts: Row -> bool, accepts': Row -> bool, s: Bag)
    requires forall x :: accepts(x) == accepts'(x)
    ensures EvalMap(project, accepts, s) == EvalMap(project, accepts', s)
  {
    if s != [] {
      MapAlike(project, accepts, accepts', s[1..]);
    }
  }

  lemma {:induction false} InnerSnoc(kind: Kind, l: Bag, w: Weighted, r: Bag)
    requires kind.Join?
    ensures EvalInner(kind, l + [w], r) == EvalInner(kind, l, r) + JoinRow(kind, w.row, w.m, r)
  {
    if l == [] {
      assert l + [w] == [w] && [w][1..] == [];
    } else {
      assert (l + [w])[1..] == l[1..] + [w];
      InnerSnoc(kind, l[1..], w, r);
    }
  }

  lemma {:induction false} JoinsNothing(kind: Kind, y: Row, m: int, r: Bag)
    requires kind.Join? && forall z :: !Joins(kind, y, z)
    ensures JoinRow(kind, y, m, r) == []
  {
    if r != [] {
      JoinsNothing(kind, y, m, r[1..]);
    }
  }

  lemma {:induction false} JoinedByNothing(kind: Kind, y: Row, m: int, r: Bag, w: Weighted)
    requires kind.Join? && !Joins(kind, y, w.row)
    ensures JoinRow(kind, y, m, r + [w]) == JoinRow(kind, y, m, r)
  {
    if r == [] {
      assert r + [w] == [w] && [w][1..] == [];
    } else {
      assert (r + [w])[1..] == r[1..] + [w];
      JoinedByNothing(kind, y, m, r[1..], w);
    }
  }

  lemma {:induction false} InnerIgnores(kind: Kind, l: Bag, r: Bag, w: Weighted)
    requires kind.Join? && forall y :: !Joins(kind, y, w.row)
    ensures EvalInner(kind, l, r + [w]) == EvalInner(kind, l, r)
  {
    if l != [] {
      JoinedByNothing(kind, l[0].row, l[0].m, r, w);
      InnerIgnores(kind, l[1..], r, w);
    }
  }

  /** A NULL key cell on either side joins with nothing. */
  lemma NullJoinsNothing(kind: Kind, y: Row, z: Row)
    requires kind.Join? && (Null in kind.left(y) || Null in kind.right(z))
    ensures !Joins(kind, y, z)
  {
    JoinsMatches(kind, y, z);
  }

  lemma OneCopy(y: Row, m: int, x: Row)
    ensures Net([Weighted(y, m)], x) == if x == y then m else 0
  {
    assert [Weighted(y, m)][1..] == [];
  }

  lemma SnocMatched(kind: Kind, l: Bag, w: Weighted, z: Row)
    requires kind.Join? && !Joins(kind, w.row, z)
    ensures RightMatched(kind, l + [w], z) == RightMatched(kind, l, z)
  {
    if i :| 0 <= i < |l| && Joins(kind, l[i].row, z) {
      assert (l + [w])[i] == l[i];
    }
  }

  lemma SnocMatchedRight(kind: Kind, r: Bag, w: Weighted, y: Row)
    requires kind.Join? && !Joins(kind, y, w.row)
    ensures LeftMatched(kind, y, r + [w]) == LeftMatched(kind, y, r)
  {
    if i :| 0 <= i < |r| && Joins(kind, y, r[i].row) {
      assert (r + [w])[i] == r[i];
    }
  }

  lemma NullLeftParts(kind: Kind, l: Bag, r: Bag, y: Row, m: int, lw: nat, rw: nat, x: Row)
    requires kind.Join? && Null in kind.left(y)
    ensures
      var l' := l + [Weighted(y, m)];
      && EvalInner(kind, l', r) == EvalInner(kind, l, r)
      && Net(EvalMap(x => x + Nulls(rw), x => !LeftMatched(kind, x, r), l'), x) ==
           Net(EvalMap(x => x + Nulls(rw), x => !LeftMatched(kind, x, r), l), x)
           + (if x == PaddedRight(y, rw) then m else 0)
      && EvalMap(y => Nulls(lw) + y, y => !RightMatched(kind, l', y), r) ==
           EvalMap(y => Nulls(lw) + y, y => !RightMatched(kind, l, y), r)
      && EvalMap(x => x, x => LeftMatched(kind, x, r), l') == EvalMap(x => x, x => LeftMatched(kind, x, r), l)
      && Net(EvalMap(x => x, x => !LeftMatched(kind, x, r), l'), x) ==
           Net(EvalMap(x => x, x => !LeftMatched(kind, x, r), l), x) + if x == y then m else 0
  {
    var w := Weighted(y, m);
    var l' := l + [w];
    forall z ensures !Joins(kind, y, z) { NullJoinsNothing(kind, y, z); }
    InnerSnoc(kind, l, w, r);
    JoinsNothing(kind, y, m, r);
    MapSnoc(x => x + Nulls(rw), x => !LeftMatched(kind, x, r), l, w);
    NetAppend(EvalMap(x => x + Nulls(rw), x => !LeftMatched(kind, x, r), l), [Weighted(y + Nulls(rw), m)], x);
    OneCopy(y + Nulls(rw), m, x);
    assert Nulls(rw) == seq(rw, _ => Null);
    MapSnoc(x => x, x => LeftMatched(kind, x, r), l, w);
    MapSnoc(x => x, x => !LeftMatched(kind, x, r), l, w);
    NetAppend(EvalMap(x => x, x => !LeftMatched(kind, x, r), l), [w], x);
    OneCopy(y, m, x);
    forall z ensures RightMatched(kind, l', z) == RightMatched(kind, l, z) { SnocMatched(kind, l, w, z); }
    MapAlike(y => Nulls(lw) + y, z => !RightMatched(kind, l', z), z => !RightMatched(kind, l, z), r);
  }

  lemma NullRightParts(kind: Kind, l: Bag, r: Bag, z: Row, m: int, lw: nat, rw: nat, x: Row)
    requires kind.Join? && Null in kind.right(z)
    ensures
      var r' := r + [Weighted(z, m)];
      && EvalInner(kind, l, r') == EvalInner(kind, l, r)
      && EvalMap(x => x + Nulls(rw), x => !LeftMatched(kind, x, r'), l) ==
           EvalMap(x => x + Nulls(rw), x => !LeftMatched(kind, x, r), l)
      && Net(EvalMap(y => Nulls(lw) + y, y => !RightMatched(kind, l, y), r'), x) ==
           Net(EvalMap(y => Nulls(lw) + y, y => !RightMatched(kind, l, y), r), x)
           + (if x == PaddedLeft(lw, z) then m else 0)
      && EvalMap(x => x, x => LeftMatched(kind, x, r'), l) == EvalMap(x => x, x => LeftMatched(kind, x, r), l)
      && EvalMap(x => x, x => !LeftMatched(kind, x, r'), l) == EvalMap(x => x, x => !LeftMatched(kind, x, r), l)
  {
    var w := Weighted(z, m);
    var r' := r + [w];
    forall y ensures !Joins(kind, y, z) { NullJoinsNothing(kind, y, z); }
    InnerIgnores(kind, l, r, w);
    forall y ensures LeftMatched(kind, y, r') == LeftMatched(kind, y, r) { SnocMatchedRight(kind, r, w, y); }
    MapAlike(x => x + Nulls(rw), y => !LeftMatched(kind, y, r'), y => !LeftMatched(kind, y, r), l);
    MapAlike(x => x, y => LeftMatched(kind, y, r'), y => LeftMatched(kind, y, r), l);
    MapAlike(x => x, y => !LeftMatched(kind, y, r'), y => !LeftMatched(kind, y, r), l);
    MapSnoc(y => Nulls(lw) + y, y => !RightMatched(kind, l, y), r, w);
    NetAppend(EvalMap(y => Nulls(lw) + y, y => !RightMatched(kind, l, y), r), [Weighted(Nulls(lw) + z, m)], x);
    OneCopy(Nulls(lw) + z, m, x);
    assert Nulls(lw) == seq(lw, _ => Null);
  }

  /** A left row with a NULL key cell pairs with nothing: `m` copies of it are shown as
      `m` padded rows by the joins that keep the left side, as they are by ANTI, and by
      no other join. */
  lemma NullLeftRow(kind: Kind, l: Bag, r: Bag, y: Row, m: int, lw: nat, rw: nat, x: Row)
    requires kind.Join? && Null in kind.left(y)
    ensures
      Net(EvalJoin(kind, l + [Weighted(y, m)], r, lw, rw), x) ==
        Net(EvalJoin(kind, l, r, lw, rw), x)
        + if (KeepsLeft(kind.mode) && x == PaddedRight(y, rw)) || (kind.mode.Anti? && x == y) then m else 0
  {
    NullLeftParts(kind, l, r, y, m, lw, rw, x);
    JoinNet(kind, l, r, lw, rw, x);
    JoinNet(kind, l + [Weighted(y, m)], r, lw, rw, x);
  }

  /** A right row with a NULL key cell pairs with nothing: it is shown padded by the
      joins that keep the right side, and by no other join. */
  lemma NullRightRow(kind: Kind, l: Bag, r: Bag, z: Row, m: int, lw: nat, rw: nat, x: Row)
    requires kind.Join? && Null in kind.right(z)
    ensures Net(EvalJoin(kind, l, r + [Weighted(z, m)], lw, rw), x) ==
              Net(EvalJoin(kind, l, r, lw, rw), x) + if KeepsRight(kind.mode) && x == PaddedLeft(lw, z) then m else 0
  {
    NullRightParts(kind, l, r, z, m, lw, rw, x);
    JoinNet(kind, l, r, lw, rw, x);
    JoinNet(kind, l, r + [Weighted(z, m)], lw, rw, x);
  }

  /** Two rows whose key cells are equal and not NULL, and whose residual condition
      holds, pair with the product of their multiplicities; other rows do not pair. */
  lemma PairedRows(kind: Kind, y: Row, m: int, z: Row, n: int, lw: nat, rw: nat)
    requires kind.Join? && kind.mode.Inner?
    ensures
      var k, l := kind.left(y), kind.right(z);
      var paired := |k| == |l| && (forall i | 0 <= i < |k| :: k[i] == l[i] && k[i] != Null) && kind.residual(y + z);
      EvalJoin(kind, [Weighted(y, m)], [Weighted(z, n)], lw, rw) == if paired then [Weighted(y + z, m * n)] else []
  {
    JoinsMatches(kind, y, z);
    assert [Weighted(y, m)][1..] == [] && [Weighted(z, n)][1..] == [];
    assert JoinRow(kind, y, m, []) == [] && EvalInner(kind, [], [Weighted(z, n)]) == [];
  }

  // ------------------------------------------------------------------- other nodes

  function MapsTo(project: Row -> Row, accepts: Row -> bool, x: Row): Row -> int {
    y => Bit(accepts(y) && project(y) == x)
  }

  function TotalCopies(bags: seq<Bag>, x: Row): int {
    if bags == [] then 0 else Net(bags[0], x) + TotalCopies(bags[1..], x)
  }

  predicate InSome(bags: seq<Bag>, x: Row) {
    exists i :: 0 <= i < |bags| && Net(bags[i], x) > 0
  }

  function Times(rows: seq<Row>, x: Row): int {
    if rows == [] then 0 else Bit(rows[0] == x) + Times(rows[1..], x)
  }

  /** The rows of one group, as often as they are there. */
  function GroupPart(kind: Kind, s: Bag, k: Row): map<Row, int>
    requires kind.Group?
  {
    map r | r in RowsOf(s) && (kind.keyless || kind.key(r) == k) && Net(s, r) != 0 :: Net(s, r)
  }

  function GroupCopies(kind: Kind, s: Bag, keys: seq<Row>, x: Row): int
    requires kind.Group?
  {
    if keys == [] then 0
    else Times(kind.aggregate(GroupPart(kind, s, keys[0])), x) + GroupCopies(kind, s, keys[1..], x)
  }

  /** How many copies of `x` a node shows over actual copies of its inputs' rows. */
  function NodeCopies(kind: Kind, bags: seq<Bag>, leftWidth: nat, rightWidth: nat, x: Row): int
    requires ArityOk(kind, |bags|) && !kind.Input? && !kind.Fixpoint?
  {
    match kind
    case Map(project, accepts, _) => WSum(bags[0], MapsTo(project, accepts, x))
    case Join(_, _, _, _) => JoinCopies(kind, bags[0], bags[1], leftWidth, rightWidth, x)
    case Set(All) => TotalCopies(bags, x)
    case Set(Union) => Bit(InSome(bags, x))
    case Set(Except) => Bit(Net(bags[0], x) > 0 && Net(bags[1], x) == 0)
    case Set(Intersect) => Bit(Net(bags[0], x) > 0 && Net(bags[1], x) > 0)
    case Group(_, _, _, _) => GroupCopies(kind, bags[0], if kind.keyless then [[]] else KeysIn(kind, bags[0]), x)
  }

  lemma EvaluatedMap(project: Row -> Row, accepts: Row -> bool, s: Bag, x: Row)
    ensures Net(EvalMap(project, accepts, s), x) == WSum(s, MapsTo(project, accepts, x))
  {
    NetEvalMap(project, accepts, s, x);
    var g: Row -> int := y => if accepts(y) && project(y) == x then 1 else 0;
    var h := MapsTo(project, accepts, x);
    forall y ensures g(y) == h(y) {
      assert h(y) == Bit(accepts(y) && project(y) == x);
    }
    WSumExtensional(s, g, h);
  }

  lemma {:induction false} ConcatCopies(bags: seq<Bag>, x: Row)
    ensures Net(Concat(bags), x) == TotalCopies(bags, x)
  {
    if bags != [] {
      NetAppend(bags[0], Concat(bags[1..]), x);
      ConcatCopies(bags[1..], x);
    }
  }

  lemma UnionCopies(bags: seq<Bag>, x: Row)
    requires |bags| > 0 && AllPositive(bags)
    ensures Net(EvalSet(Union, bags), x) == Bit(InSome(bags, x))
  {
    DistinctNet(Concat(bags), x);
    ConcatRows(bags, x);
    forall i | 0 <= i < |bags| ensures x in RowsOf(bags[i]) <==> Net(bags[i], x) > 0 {
      NetPositive(bags[i], x);
    }
  }

  lemma DifferenceCopies(op: SetOp, bags: seq<Bag>, x: Row)
    requires (op.Except? || op.Intersect?) && |bags| == 2 && AllPositive(bags)
    ensures Net(EvalSet(op, bags), x) == Bit(Net(bags[0], x) > 0 && (Net(bags[1], x) > 0 <==> op.Intersect?))
    ensures Net(bags[1], x) >= 0
  {
    assert bags == [bags[0], bags[1]];
    SetNet(op, bags[0], bags[1], x);
    NetPositive(bags[0], x);
    NetPositive(bags[1], x);
  }

  lemma {:induction false} TimesNet(rows: seq<Row>, x: Row)
    ensures Net(Weigh(rows, 1), x) == Times(rows, x)
  {
    if rows != [] {
      assert Weigh(rows, 1)[1..] == Weigh(rows[1..], 1);
      TimesNet(rows[1..], x);
    }
  }

  lemma PartContents(kind: Kind, s: Bag, k: Row)
    requires kind.Group?
    ensures Contents(if kind.keyless then s else Restrict(s, x => kind.key(x) == k)) == GroupPart(kind, s, k)
  {
    var keep := x => kind.key(x) == k;
    forall r ensures r in RowsOf(Restrict(s, keep)) <==> r in RowsOf(s) && keep(r) { RowsRestrict(s, keep, r); }
    forall r ensures Net(Restrict(s, keep), r) == if keep(r) then Net(s, r) else 0 { NetRestrict(s, keep, r); }
  }

  lemma {:induction false} GroupsCopies(kind: Kind, s: Bag, keys: seq<Row>, x: Row)
    requires kind.Group? && !kind.keyless
    ensures Net(GroupsOf(kind, s, keys), x) == GroupCopies(kind, s, keys, x)
  {
    if keys != [] {
      NetAppend(GroupRows(kind, s, keys[0]), GroupsOf(kind, s, keys[1..]), x);
      PartContents(kind, s, keys[0]);
      TimesNet(kind.aggregate(GroupPart(kind, s, keys[0])), x);
      GroupsCopies(kind, s, keys[1..], x);
    }
  }

  lemma EvaluatedGroup(kind: Kind, s: Bag, x: Row)
    requires kind.Group?
    ensures Net(EvalGroup(kind, s), x) == GroupCopies(kind, s, if kind.keyless then [[]] else KeysIn(kind, s), x)
  {
    if kind.keyless {
      PartContents(kind, s, []);
      TimesNet(kind.aggregate(GroupPart(kind, s, [])), x);
      assert GroupCopies(kind, s, [[]][1..], x) == 0;
    } else {
      assert seq(|s|, i requires 0 <= i < |s| => kind.key(s[i].row)) ==
             seq(|s|, i requires 0 <= i < |s| => KeyOf(kind, 0, s[i].row));
      GroupsCopies(kind, s, KeysIn(kind, s), x);
    }
  }

  /** Evaluation shows exactly these copies, whatever the node's kind. */
  lemma EvaluatedNode(kind: Kind, bags: seq<Bag>, lw: nat, rw: nat, x: Row)
    requires ArityOk(kind, |bags|) && !kind.Input? && !kind.Fixpoint? && AllPositive(bags)
    ensures Net(EvalNode(kind, bags, lw, rw), x) == NodeCopies(kind, bags, lw, rw, x)
  {
    match kind
    case Map(project, accepts, _) => EvaluatedMap(project, accepts, bags[0], x);
    case Join(_, _, _, _) => EvaluatedJoin(kind, bags[0], bags[1], lw, rw, x);
    case Set(All) => ConcatCopies(bags, x);
    case Set(Union) => UnionCopies(bags, x);
    case Set(op) => DifferenceCopies(op, bags, x);
    case Group(_, _, _, _) => EvaluatedGroup(kind, bags[0], x);
  }

  function WidthOf(plan: Plan, id: nat): nat
    requires id < |plan.nodes|
  {
    plan.nodes[id].width
  }

  /** So the value of a plan's node, over the values of its inputs and their widths. */
  lemma NodeShows(plan: Plan, sources: seq<Bag>, vs: seq<Bag>, id: nat, x: Row)
    requires ValidPlan(plan) && id < |vs| <= |plan.nodes| && EvaluatesAll(plan, sources, vs)
    requires !plan.nodes[id].kind.Input? && !plan.nodes[id].kind.Fixpoint?
    ensures
      var inputs := plan.nodes[id].inputs;
      var lw, rw := WidthOf(plan, inputs[0]), if |inputs| > 1 then WidthOf(plan, inputs[1]) else 0;
      Net(vs[id], x) == NodeCopies(plan.nodes[id].kind, InputValues(plan, vs, id), lw, rw, x)
  {
    assert Evaluates(plan, sources, vs, id);
    InputsPositive(plan, sources, vs, id);
    EvaluatedNode(plan.nodes[id].kind, InputValues(plan, vs, id), InputWidth(plan, id, 0), InputWidth(plan, id, 1), x);
  }
}

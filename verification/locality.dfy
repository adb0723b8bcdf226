/** Why recomputing only the touched keys is enough: joins, set operations and
    groups evaluate key by key, and depend on their inputs only as bags. */
module Locality {
  import opened Rows
  import opened Bags
  import opened Plans

  /** Nodes maintained by recomputing touched keys, before and after. */
  predicate Keyed(kind: Kind) {
    kind.Join? || kind.Group? || (kind.Set? && (kind.op.Except? || kind.op.Intersect?))
  }

  /** The key a row of one side is interned under. */
  function KeyOf(kind: Kind, side: nat, x: Row): Row
    requires Keyed(kind)
  {
    match kind
    case Join(_, left, right, _) => if side == 0 then left(x) else right(x)
    case Group(keyless, key, _, _) => if keyless then [] else key(x)
    case Set(_) => x
  }

  /** The keys of a single input, each once. */
  function KeysIn(kind: Kind, s: Bag): seq<Row>
    requires Keyed(kind)
  {
    Distinct(seq(|s|, i requires 0 <= i < |s| => KeyOf(kind, 0, s[i].row)))
  }

  predicate Sides(kind: Kind, bags: seq<Bag>) {
    Keyed(kind) && |bags| == if kind.Group? then 1 else 2
  }

  function EvalKeyed(kind: Kind, bags: seq<Bag>, leftWidth: nat, rightWidth: nat): Bag
    requires Sides(kind, bags)
  {
    match kind
    case Join(_, _, _, _) => EvalJoin(kind, bags[0], bags[1], leftWidth, rightWidth)
    case Group(_, _, _, _) => EvalGroup(kind, bags[0])
    case Set(op) => EvalSet(op, bags)
  }

  function RestrictTo(kind: Kind, side: nat, s: Bag, keys: set<Row>): Bag
    requires Keyed(kind)
  {
    Restrict(s, x => KeyOf(kind, side, x) in keys)
  }

  function RestrictAway(kind: Kind, side: nat, s: Bag, keys: set<Row>): Bag
    requires Keyed(kind)
  {
    Restrict(s, x => KeyOf(kind, side, x) !in keys)
  }

  /** The part of a side that `k` is in: the touched rows or the others. */
  function Part(kind: Kind, side: nat, s: Bag, keys: set<Row>, k: Row): Bag
    requires Keyed(kind)
  {
    if k in keys then RestrictTo(kind, side, s, keys) else RestrictAway(kind, side, s, keys)
  }

  function AllRestricted(kind: Kind, bags: seq<Bag>, keys: set<Row>): (r: seq<Bag>)
    requires Sides(kind, bags)
    ensures Sides(kind, r)
  {
    seq(|bags|, side requires 0 <= side < |bags| => RestrictTo(kind, side, bags[side], keys))
  }

  function AllAway(kind: Kind, bags: seq<Bag>, keys: set<Row>): (r: seq<Bag>)
    requires Sides(kind, bags)
    ensures Sides(kind, r)
  {
    seq(|bags|, side requires 0 <= side < |bags| => RestrictAway(kind, side, bags[side], keys))
  }

  ghost predicate AllPositive(bags: seq<Bag>) {
    forall side | 0 <= side < |bags| :: Positive(bags[side])
  }

  ghost predicate AllSame(a: seq<Bag>, b: seq<Bag>) {
    |a| == |b| && forall side | 0 <= side < |a| :: Same(a[side], b[side])
  }

  // --------------------------------------------------------------- restrictions

  lemma {:induction false} RestrictRows(s: Bag, keep: Row -> bool)
    ensures forall i | 0 <= i < |Restrict(s, keep)| :: keep(Restrict(s, keep)[i].row) && Restrict(s, keep)[i] in s
    ensures Positive(s) ==> Positive(Restrict(s, keep))
    ensures forall i | 0 <= i < |s| && keep(s[i].row) :: s[i] in Restrict(s, keep)
  {
    if s != [] {
      RestrictRows(s[1..], keep);
      assert s == [s[0]] + s[1..];
    }
  }

  lemma {:induction false} WSumRestrict(s: Bag, keep: Row -> bool, drop: Row -> bool, g: Row -> int)
    requires forall x :: drop(x) == !keep(x)
    ensures WSum(s, g) == WSum(Restrict(s, keep), g) + WSum(Restrict(s, drop), g)
  {
    if s != [] {
      WSumRestrict(s[1..], keep, drop, g);
      var k, d := Restrict(s[1..], keep), Restrict(s[1..], drop);
      assert ([s[0]] + k)[1..] == k && ([s[0]] + d)[1..] == d;
      assert [] + k == k && [] + d == d;
    }
  }

  lemma {:induction false} WSumZero(s: Bag, g: Row -> int)
    requires forall i | 0 <= i < |s| :: g(s[i].row) == 0
    ensures WSum(s, g) == 0
  {
    if s != [] {
      WSumZero(s[1..], g);
    }
  }

  lemma NetRestrict(s: Bag, keep: Row -> bool, r: Row)
    ensures Net(Restrict(s, keep), r) == if keep(r) then Net(s, r) else 0
  {
    NetIsWSum(s, r);
    NetIsWSum(Restrict(s, keep), r);
    var g := x => if x == r then 1 else 0;
    WSumRestrict(s, keep, x => !keep(x), g);
    RestrictRows(s, keep);
    RestrictRows(s, x => !keep(x));
    if keep(r) {
      WSumZero(Restrict(s, x => !keep(x)), g);
    } else {
      WSumZero(Restrict(s, keep), g);
    }
  }

  lemma RestrictSame(s: Bag, t: Bag, keep: Row -> bool)
    requires forall r | keep(r) :: Net(s, r) == Net(t, r)
    ensures Same(Restrict(s, keep), Restrict(t, keep))
  {
    forall r ensures Net(Restrict(s, keep), r) == Net(Restrict(t, keep), r) {
      NetRestrict(s, keep, r);
      NetRestrict(t, keep, r);
    }
  }

  lemma SameRows(s: Bag, t: Bag)
    requires Positive(s) && Positive(t) && Same(s, t)
    ensures forall r :: r in RowsOf(s) <==> r in RowsOf(t)
  {
    forall r ensures r in RowsOf(s) <==> r in RowsOf(t) {
      NetPositive(s, r);
      NetPositive(t, r);
    }
  }

  // ------------------------------------------------------------------ EvalMap

  /** Filters that agree on the rows give the same bag over equal bags. */
  lemma MapSame(project: Row -> Row, p: Row -> bool, q: Row -> bool, s: Bag, t: Bag)
    requires Same(s, t) && forall x :: p(x) == q(x)
    ensures Same(EvalMap(project, p, s), EvalMap(project, q, t))
  {
    forall r ensures Net(EvalMap(project, p, s), r) == Net(EvalMap(project, q, t), r) {
      var g, h := (x: Row) => if p(x) && project(x) == r then 1 else 0, (x: Row) => if q(x)
      && project(x) == r then 1 else 0;
      NetEvalMap(project, p, s, r);
      NetEvalMap(project, q, t, r);
      WSumSame(s, t, g);
      WSumExtensional(t, g, h);
    }
  }

  /** A filter that looks at one key at a time splits by key. */
  lemma MapSplit(project: Row -> Row, p: Row -> bool, pin: Row -> bool, pout: Row -> bool, s: Bag, keep: Row -> bool,
                 drop: Row -> bool, r: Row)
    requires forall x :: drop(x) == !keep(x)
    requires forall x :: (keep(x) ==> p(x) == pin(x)) && (drop(x) ==> p(x) == pout(x))
    ensures Net(EvalMap(project, p, s), r) ==
            Net(EvalMap(project, pin, Restrict(s, keep)), r) + Net(EvalMap(project, pout, Restrict(s, drop)), r)
  {
    var g := (x: Row) => if p(x) && project(x) == r then 1 else 0;
    var gin := (x: Row) => if pin(x) && project(x) == r then 1 else 0;
    var gout := (x: Row) => if pout(x) && project(x) == r then 1 else 0;
    NetEvalMap(project, p, s, r);
    NetEvalMap(project, pin, Restrict(s, keep), r);
    NetEvalMap(project, pout, Restrict(s, drop), r);
    WSumRestrict(s, keep, drop, g);
    RestrictRows(s, keep);
    RestrictRows(s, drop);
    WSumExtensional(Restrict(s, keep), g, gin);
    WSumExtensional(Restrict(s, drop), g, gout);
  }

  // --------------------------------------------------------------------- joins

  lemma MatchedSame(kind: Kind, l: Bag, l': Bag, r: Bag, r': Bag)
    requires kind.Join? && Positive(l) && Positive(l') && Positive(r) && Positive(r') && Same(l, l') && Same(r, r')
    ensures forall x :: LeftMatched(kind, x, r) == LeftMatched(kind, x, r')
    ensures forall y :: RightMatched(kind, l, y) == RightMatched(kind, l', y)
  {
    SameRows(l, l');
    SameRows(r, r');
    MatchedByRows(kind, r, r');
    MatchedByRows(kind, r', r);
    MatchedByRowsRight(kind, l, l');
    MatchedByRowsRight(kind, l', l);
  }

  lemma MatchedByRows(kind: Kind, r: Bag, r': Bag)
    requires kind.Join? && forall x | x in RowsOf(r) :: x in RowsOf(r')
    ensures forall x | LeftMatched(kind, x, r) :: LeftMatched(kind, x, r')
  {
    forall x | LeftMatched(kind, x, r) ensures LeftMatched(kind, x, r') {
      var i :| 0 <= i < |r| && Joins(kind, x, r[i].row);
      assert RowsOf(r)[i] == r[i].row;
      assert r[i].row in RowsOf(r');
      var j :| 0 <= j < |r'| && RowsOf(r')[j] == r[i].row;
      assert r'[j].row == RowsOf(r')[j];
      assert Joins(kind, x, r'[j].row);
    }
  }

  lemma MatchedByRowsRight(kind: Kind, l: Bag, l': Bag)
    requires kind.Join? && forall x | x in RowsOf(l) :: x in RowsOf(l')
    ensures forall y | RightMatched(kind, l, y) :: RightMatched(kind, l', y)
  {
    forall y | RightMatched(kind, l, y) ensures RightMatched(kind, l', y) {
      var i :| 0 <= i < |l| && Joins(kind, l[i].row, y);
      assert RowsOf(l)[i] == l[i].row;
      assert l[i].row in RowsOf(l');
      var j :| 0 <= j < |l'| && RowsOf(l')[j] == l[i].row;
      assert l'[j].row == RowsOf(l')[j];
      assert Joins(kind, l'[j].row, y);
    }
  }

  lemma InnerSame(kind: Kind, l: Bag, l': Bag, r: Bag, r': Bag)
    requires kind.Join? && Same(l, l') && Same(r, r')
    ensures Same(EvalInner(kind, l, r), EvalInner(kind, l', r'))
  {
    forall x ensures Net(EvalInner(kind, l, r), x) == Net(EvalInner(kind, l', r'), x) {
      InnerLeftDelta(kind, [], l, l', r, x);
      InnerRightDelta(kind, l', [], r, r', x);
      assert EvalInner(kind, [], r) == [];
      InnerOfNothing(kind, l', x);
    }
  }

  lemma {:induction false} InnerOfNothing(kind: Kind, l: Bag, x: Row)
    requires kind.Join?
    ensures Net(EvalInner(kind, l, []), x) == 0
  {
    if l != [] {
      InnerOfNothing(kind, l[1..], x);
      InnerStep(kind, l, [], x);
    }
  }

  lemma JoinSame(kind: Kind, l: Bag, l': Bag, r: Bag, r': Bag, lw: nat, rw: nat)
    requires kind.Join? && Positive(l) && Positive(l') && Positive(r) && Positive(r') && Same(l, l') && Same(r, r')
    ensures Same(EvalJoin(kind, l, r, lw, rw), EvalJoin(kind, l', r', lw, rw))
  {
    MatchedSame(kind, l, l', r, r');
    InnerSame(kind, l, l', r, r');
    MapSame(x => x + Nulls(rw), x => !LeftMatched(kind, x, r), x => !LeftMatched(kind, x, r'), l, l');
    MapSame(y => Nulls(lw) + y, y => !RightMatched(kind, l, y), y => !RightMatched(kind, l', y), r, r');
    MapSame(x => x, x => !LeftMatched(kind, x, r), x => !LeftMatched(kind, x, r'), l, l');
    MapSame(x => x, x => LeftMatched(kind, x, r), x => LeftMatched(kind, x, r'), l, l');
    forall x ensures Net(EvalJoin(kind, l, r, lw, rw), x) == Net(EvalJoin(kind, l', r', lw, rw), x) {
      JoinNet(kind, l, r, lw, rw, x);
      JoinNet(kind, l', r', lw, rw, x);
    }
  }

  /** The three parts of a join's bag. */
  lemma JoinNet(kind: Kind, l: Bag, r: Bag, lw: nat, rw: nat, x: Row)
    requires kind.Join?
    ensures
      var inner := Net(EvalInner(kind, l, r), x);
      var left := Net(EvalMap(x => x + Nulls(rw), x => !LeftMatched(kind, x, r), l), x);
      var right := Net(EvalMap(y => Nulls(lw) + y, y => !RightMatched(kind, l, y), r), x);
      Net(EvalJoin(kind, l, r, lw, rw), x) ==
      match kind.mode
      case Inner => inner
      case LeftOuter => inner + left
      case RightOuter => inner + right
      case FullOuter => inner + left + right
      case Semi => Net(EvalMap(x => x, x => LeftMatched(kind, x, r), l), x)
      case Anti => Net(EvalMap(x => x, x => !LeftMatched(kind, x, r), l), x)
  {
    var inner := EvalInner(kind, l, r);
    var left := EvalMap(x => x + Nulls(rw), x => !LeftMatched(kind, x, r), l);
    var right := EvalMap(y => Nulls(lw) + y, y => !RightMatched(kind, l, y), r);
    NetAppend(inner, left, x);
    NetAppend(inner, right, x);
    NetAppend(inner + left, right, x);
  }

  lemma InnerSplit(kind: Kind, l: Bag, r: Bag, keys: set<Row>, x: Row)
    requires kind.Join?
    ensures Net(EvalInner(kind, l, r), x) ==
            Net(EvalInner(kind, RestrictTo(kind, 0, l, keys), RestrictTo(kind, 1, r, keys)), x) +
            Net(EvalInner(kind, RestrictAway(kind, 0, l, keys), RestrictAway(kind, 1, r, keys)), x)
  {
    var lin, lout := RestrictTo(kind, 0, l, keys), RestrictAway(kind, 0, l, keys);
    var rin, rout := RestrictTo(kind, 1, r, keys), RestrictAway(kind, 1, r, keys);
    NetInner(kind, l, r, x);
    NetInner(kind, lin, rin, x);
    NetInner(kind, lout, rout, x);
    var g := y => WSum(r, z => PairIs(kind, y, z, x));
    WSumRestrict(l, y => KeyOf(kind, 0, y) in keys, y => KeyOf(kind, 0, y) !in keys, g);
    RestrictRows(l, y => KeyOf(kind, 0, y) in keys);
    RestrictRows(l, y => KeyOf(kind, 0, y) !in keys);
    forall y ensures g(y) == WSum(if KeyOf(kind, 0, y) in keys then rin else rout, z => PairIs(kind, y, z, x)) {
      PartnersShareKey(kind, r, keys, y, x);
    }
    WSumExtensional(lin, g, y => WSum(rin, z => PairIs(kind, y, z, x)));
    WSumExtensional(lout, g, y => WSum(rout, z => PairIs(kind, y, z, x)));
  }

  lemma PartnersShareKey(kind: Kind, r: Bag, keys: set<Row>, y: Row, x: Row)
    requires kind.Join?
    ensures WSum(r, z => PairIs(kind, y, z, x)) ==
            WSum(if KeyOf(kind, 0, y) in keys then RestrictTo(kind, 1, r, keys) else RestrictAway(kind, 1, r, keys),
                 z => PairIs(kind, y, z, x))
  {
    var g := z => PairIs(kind, y, z, x);
    WSumRestrict(r, z => KeyOf(kind, 1, z) in keys, z => KeyOf(kind, 1, z) !in keys, g);
    RestrictRows(r, z => KeyOf(kind, 1, z) in keys);
    RestrictRows(r, z => KeyOf(kind, 1, z) !in keys);
    if KeyOf(kind, 0, y) in keys {
      WSumZero(RestrictAway(kind, 1, r, keys), g);
    } else {
      WSumZero(RestrictTo(kind, 1, r, keys), g);
    }
  }

  lemma MatchedSplit(kind: Kind, l: Bag, r: Bag, keys: set<Row>)
    requires kind.Join?
    ensures forall x | KeyOf(kind, 0, x) in keys ::
              LeftMatched(kind, x, r) == LeftMatched(kind, x, RestrictTo(kind, 1, r, keys))
    ensures forall x | KeyOf(kind, 0, x) !in keys ::
              LeftMatched(kind, x, r) == LeftMatched(kind, x, RestrictAway(kind, 1, r, keys))
    ensures forall y | KeyOf(kind, 1, y) in keys ::
              RightMatched(kind, l, y) == RightMatched(kind, RestrictTo(kind, 0, l, keys), y)
    ensures forall y | KeyOf(kind, 1, y) !in keys ::
              RightMatched(kind, l, y) == RightMatched(kind, RestrictAway(kind, 0, l, keys), y)
  {
    forall x
      ensures LeftMatched(kind, x, r) == LeftMatched(kind, x, Part(kind, 1, r, keys, KeyOf(kind, 0, x))) {
      if KeyOf(kind, 0, x) in keys {
        MatchedInside(kind, x, r, z => KeyOf(kind, 1, z) in keys);
      } else {
        MatchedInside(kind, x, r, z => KeyOf(kind, 1, z) !in keys);
      }
    }
    forall y
      ensures RightMatched(kind, l, y) == RightMatched(kind, Part(kind, 0, l, keys, KeyOf(kind, 1, y)), y) {
      if KeyOf(kind, 1, y) in keys {
        MatchedInsideRight(kind, y, l, z => KeyOf(kind, 0, z) in keys);
      } else {
        MatchedInsideRight(kind, y, l, z => KeyOf(kind, 0, z) !in keys);
      }
    }
  }

  lemma MatchedInside(kind: Kind, x: Row, r: Bag, keep: Row -> bool)
    requires kind.Join? && forall z | Joins(kind, x, z) :: keep(z)
    ensures LeftMatched(kind, x, r) == LeftMatched(kind, x, Restrict(r, keep))
  {
    RestrictRows(r, keep);
    if LeftMatched(kind, x, r) {
      var i :| 0 <= i < |r| && Joins(kind, x, r[i].row);
      var j :| 0 <= j < |Restrict(r, keep)| && Restrict(r, keep)[j] == r[i];
    }
    if LeftMatched(kind, x, Restrict(r, keep)) {
      var j :| 0 <= j < |Restrict(r, keep)| && Joins(kind, x, Restrict(r, keep)[j].row);
      var i :| 0 <= i < |r| && r[i] == Restrict(r, keep)[j];
    }
  }

  lemma MatchedInsideRight(kind: Kind, y: Row, l: Bag, keep: Row -> bool)
    requires kind.Join? && forall z | Joins(kind, z, y) :: keep(z)
    ensures RightMatched(kind, l, y) == RightMatched(kind, Restrict(l, keep), y)
  {
    RestrictRows(l, keep);
    if RightMatched(kind, l, y) {
      var i :| 0 <= i < |l| && Joins(kind, l[i].row, y);
      var j :| 0 <= j < |Restrict(l, keep)| && Restrict(l, keep)[j] == l[i];
    }
    if RightMatched(kind, Restrict(l, keep), y) {
      var j :| 0 <= j < |Restrict(l, keep)| && Joins(kind, Restrict(l, keep)[j].row, y);
      var i :| 0 <= i < |l| && l[i] == Restrict(l, keep)[j];
    }
  }

  /** A join is the sum of its parts on the touched and the other keys. */
  lemma JoinSplit(kind: Kind, l: Bag, r: Bag, lw: nat, rw: nat, keys: set<Row>, x: Row)
    requires kind.Join?
    ensures Net(EvalJoin(kind, l, r, lw, rw), x) ==
            Net(EvalJoin(kind, RestrictTo(kind, 0, l, keys), RestrictTo(kind, 1, r, keys), lw, rw), x) +
            Net(EvalJoin(kind, RestrictAway(kind, 0, l, keys), RestrictAway(kind, 1, r, keys), lw, rw), x)
  {
    var lin, lout := RestrictTo(kind, 0, l, keys), RestrictAway(kind, 0, l, keys);
    var rin, rout := RestrictTo(kind, 1, r, keys), RestrictAway(kind, 1, r, keys);
    var kl, dl := (z: Row) => KeyOf(kind, 0, z) in keys, (z: Row) => KeyOf(kind, 0, z) !in keys;
    var kr, dr := (z: Row) => KeyOf(kind, 1, z) in keys, (z: Row) => KeyOf(kind, 1, z) !in keys;
    JoinNet(kind, l, r, lw, rw, x);
    JoinNet(kind, lin, rin, lw, rw, x);
    JoinNet(kind, lout, rout, lw, rw, x);
    InnerSplit(kind, l, r, keys, x);
    MatchedSplit(kind, l, r, keys);
    MapSplit(z => z + Nulls(rw), z => !LeftMatched(kind, z, r), z => !LeftMatched(kind, z, rin),
             z => !LeftMatched(kind, z, rout), l, kl, dl, x);
    MapSplit(z => Nulls(lw) + z, z => !RightMatched(kind, l, z), z => !RightMatched(kind, lin, z),
             z => !RightMatched(kind, lout, z), r, kr, dr, x);
    MapSplit(z => z, z => LeftMatched(kind, z, r), z => LeftMatched(kind, z, rin), z => LeftMatched(kind, z, rout), l,
             kl, dl, x);
    MapSplit(z => z, z => !LeftMatched(kind, z, r), z => !LeftMatched(kind, z, rin), z => !LeftMatched(kind, z, rout),
             l, kl, dl, x);
  }

  // -------------------------------------------------------------- set operations

  lemma DistinctNet(s: Bag, r: Row)
    ensures Net(Weigh(Distinct(RowsOf(s)), 1), r) == if r in RowsOf(s) then 1 else 0
  {
    NetWeigh(Distinct(RowsOf(s)), 1, r);
  }

  lemma FilterNet(p: Row -> bool, s: Bag, r: Row)
    ensures Net(EvalMap(x => x, p, s), r) == if p(r) then Net(s, r) else 0
  {
    var g := (x: Row) => if p(x) && x == r then 1 else 0;
    NetEvalMap(x => x, p, s, r);
    WSumExtensional(s, x => if p(x) && (z => z)(x) == r then 1 else 0, g);
    NetIsWSum(s, r);
    if p(r) {
      WSumExtensional(s, g, x => if x == r then 1 else 0);
    } else {
      WSumZero(s, g);
    }
  }

  lemma SetNet(op: SetOp, a: Bag, b: Bag, r: Row)
    requires op.Except? || op.Intersect?
    ensures Net(EvalSet(op, [a, b]), r) == if r in RowsOf(a) && (r in RowsOf(b) <==> op.Intersect?) then 1 else 0
  {
    var d := Weigh(Distinct(RowsOf(a)), 1);
    DistinctNet(a, r);
    FilterNet(x => x !in RowsOf(b), d, r);
    FilterNet(x => x in RowsOf(b), d, r);
  }

  lemma RowsRestrict(s: Bag, keep: Row -> bool, r: Row)
    ensures r in RowsOf(Restrict(s, keep)) <==> r in RowsOf(s) && keep(r)
  {
    var t := Restrict(s, keep);
    RestrictRows(s, keep);
    if r in RowsOf(t) {
      var i :| 0 <= i < |t| && RowsOf(t)[i] == r;
      assert t[i].row == r;
      var j :| 0 <= j < |s| && s[j] == t[i];
      assert RowsOf(s)[j] == r;
    }
    if r in RowsOf(s) && keep(r) {
      var j :| 0 <= j < |s| && RowsOf(s)[j] == r;
      assert s[j].row == r;
      var i :| 0 <= i < |t| && t[i] == s[j];
      assert RowsOf(t)[i] == r;
    }
  }

  // ---------------------------------------------------------------------- groups

  lemma ContentsSame(s: Bag, t: Bag)
    requires Same(s, t)
    ensures Contents(s) == Contents(t)
  {
    forall r ensures r in Contents(s) <==> Net(s, r) != 0 {
      if r !in RowsOf(s) { NetAbsent(s, r); }
    }
    forall r ensures r in Contents(t) <==> Net(t, r) != 0 {
      if r !in RowsOf(t) { NetAbsent(t, r); }
    }
  }

  lemma {:induction false} GroupsNet(kind: Kind, s: Bag, keys: seq<Row>, r: Row)
    requires kind.Group?
    ensures Net(GroupsOf(kind, s, keys), r) == WSum(Weigh(keys, 1), k => Net(GroupRows(kind, s, k), r))
  {
    if keys != [] {
      NetAppend(GroupRows(kind, s, keys[0]), GroupsOf(kind, s, keys[1..]), r);
      GroupsNet(kind, s, keys[1..], r);
      assert Weigh(keys, 1)[1..] == Weigh(keys[1..], 1);
    }
  }

  lemma GroupKeysSpec(kind: Kind, s: Bag, k: Row)
    requires kind.Group?
    ensures k in GroupKeys(kind, s) <==> exists i :: 0 <= i < |s| && kind.key(s[i].row) == k
  {
    var ks := seq(|s|, i requires 0 <= i < |s| => kind.key(s[i].row));
    if k in GroupKeys(kind, s) {
      assert k in ks;
      var i :| 0 <= i < |ks| && ks[i] == k;
    }
    if i :| 0 <= i < |s| && kind.key(s[i].row) == k {
      assert ks[i] == k;
      assert k in ks;
    }
  }

  lemma GroupKeysSame(kind: Kind, s: Bag, t: Bag)
    requires kind.Group? && Positive(s) && Positive(t) && Same(s, t)
    ensures Same(Weigh(GroupKeys(kind, s), 1), Weigh(GroupKeys(kind, t), 1))
  {
    SameRows(s, t);
    forall k ensures Net(Weigh(GroupKeys(kind, s), 1), k) == Net(Weigh(GroupKeys(kind, t), 1), k) {
      NetWeigh(GroupKeys(kind, s), 1, k);
      NetWeigh(GroupKeys(kind, t), 1, k);
      GroupKeysIn(kind, s, t, k);
      GroupKeysIn(kind, t, s, k);
    }
  }

  lemma GroupKeysIn(kind: Kind, s: Bag, t: Bag, k: Row)
    requires kind.Group? && forall r | r in RowsOf(s) :: r in RowsOf(t)
    ensures k in GroupKeys(kind, s) ==> k in GroupKeys(kind, t)
  {
    GroupKeysSpec(kind, s, k);
    GroupKeysSpec(kind, t, k);
    if i :| 0 <= i < |s| && kind.key(s[i].row) == k {
      assert RowsOf(s)[i] == s[i].row;
      assert s[i].row in RowsOf(t);
      var j :| 0 <= j < |t| && RowsOf(t)[j] == s[i].row;
      assert t[j].row == RowsOf(t)[j];
    }
  }

  lemma GroupRowsSame(kind: Kind, s: Bag, t: Bag, k: Row)
    requires kind.Group? && forall x | kind.key(x) == k :: Net(s, x) == Net(t, x)
    ensures GroupRows(kind, s, k) == GroupRows(kind, t, k)
  {
    RestrictSame(s, t, x => kind.key(x) == k);
    ContentsSame(Restrict(s, x => kind.key(x) == k), Restrict(t, x => kind.key(x) == k));
  }

  lemma GroupSame(kind: Kind, s: Bag, t: Bag)
    requires kind.Group? && Positive(s) && Positive(t) && Same(s, t)
    ensures Same(EvalGroup(kind, s), EvalGroup(kind, t))
  {
    if kind.keyless {
      ContentsSame(s, t);
    } else {
      GroupKeysSame(kind, s, t);
      forall r ensures Net(EvalGroup(kind, s), r) == Net(EvalGroup(kind, t), r) {
        GroupsNet(kind, s, GroupKeys(kind, s), r);
        GroupsNet(kind, t, GroupKeys(kind, t), r);
        var g, h := k => Net(GroupRows(kind, s, k), r), k => Net(GroupRows(kind, t, k), r);
        forall k ensures g(k) == h(k) {
          GroupRowsSame(kind, s, t, k);
        }
        WSumSame(Weigh(GroupKeys(kind, s), 1), Weigh(GroupKeys(kind, t), 1), g);
        WSumExtensional(Weigh(GroupKeys(kind, t), 1), g, h);
      }
    }
  }

  /** The groups of a bag are those of its touched part and of the rest. */
  lemma GroupSplit(kind: Kind, s: Bag, keys: set<Row>, r: Row)
    requires kind.Group? && !kind.keyless
    ensures Net(EvalGroup(kind, s), r) ==
            Net(EvalGroup(kind, RestrictTo(kind, 0, s, keys)), r)
            + Net(EvalGroup(kind, RestrictAway(kind, 0, s, keys)), r)
  {
    var sin, sout := RestrictTo(kind, 0, s, keys), RestrictAway(kind, 0, s, keys);
    var ks, kin, kout := GroupKeys(kind, s), GroupKeys(kind, sin), GroupKeys(kind, sout);
    var g := k => Net(GroupRows(kind, s, k), r);
    var gin, gout := k => Net(GroupRows(kind, sin, k), r), k => Net(GroupRows(kind, sout, k), r);
    GroupsNet(kind, s, ks, r);
    GroupsNet(kind, sin, kin, r);
    GroupsNet(kind, sout, kout, r);
    forall k ensures k in kin <==> k in ks && k in keys {
      KeysRestricted(kind, s, x => KeyOf(kind, 0, x) in keys, k, k in keys);
    }
    forall k ensures k in kout <==> k in ks && k !in keys {
      KeysRestricted(kind, s, x => KeyOf(kind, 0, x) !in keys, k, k !in keys);
    }
    forall k | k in keys ensures g(k) == gin(k) {
      GroupPartSame(kind, s, x => KeyOf(kind, 0, x) in keys, k);
    }
    forall k | k !in keys ensures g(k) == gout(k) {
      GroupPartSame(kind, s, x => KeyOf(kind, 0, x) !in keys, k);
    }
    var w, win, wout := Weigh(ks, 1), Weigh(kin, 1), Weigh(kout, 1);
    forall k ensures Net(w, k) == Net(win + wout, k) {
      NetWeigh(ks, 1, k);
      NetWeigh(kin, 1, k);
      NetWeigh(kout, 1, k);
      NetAppend(win, wout, k);
    }
    WSumSame(w, win + wout, g);
    WSumAppend(win, wout, g);
    forall i | 0 <= i < |win| ensures g(win[i].row) == gin(win[i].row) { assert kin[i] in kin; }
    forall i | 0 <= i < |wout| ensures g(wout[i].row) == gout(wout[i].row) { assert kout[i] in kout; }
    WSumExtensional(win, g, gin);
    WSumExtensional(wout, g, gout);
  }

  lemma KeysRestricted(kind: Kind, s: Bag, keep: Row -> bool, k: Row, pass: bool)
    requires kind.Group? && forall x | kind.key(x) == k :: keep(x) == pass
    ensures k in GroupKeys(kind, Restrict(s, keep)) <==> k in GroupKeys(kind, s) && pass
  {
    var t := Restrict(s, keep);
    GroupKeysSpec(kind, s, k);
    GroupKeysSpec(kind, t, k);
    RestrictRows(s, keep);
    if i :| 0 <= i < |t| && kind.key(t[i].row) == k {
      var j :| 0 <= j < |s| && s[j] == t[i];
    }
    if j :| 0 <= j < |s| && kind.key(s[j].row) == k && pass {
      var i :| 0 <= i < |t| && t[i] == s[j];
    }
  }

  lemma GroupPartSame(kind: Kind, s: Bag, keep: Row -> bool, k: Row)
    requires kind.Group? && forall x | kind.key(x) == k :: keep(x)
    ensures GroupRows(kind, s, k) == GroupRows(kind, Restrict(s, keep), k)
  {
    forall x | kind.key(x) == k ensures Net(s, x) == Net(Restrict(s, keep), x) {
      NetRestrict(s, keep, x);
    }
    GroupRowsSame(kind, s, Restrict(s, keep), k);
  }

  // --------------------------------------------------------------------- theorems

  /** Keyed nodes depend on their inputs only as bags. */
  lemma EvalSame(kind: Kind, a: seq<Bag>, b: seq<Bag>, lw: nat, rw: nat)
    requires Sides(kind, a) && AllSame(a, b) && AllPositive(a) && AllPositive(b)
    ensures Same(EvalKeyed(kind, a, lw, rw), EvalKeyed(kind, b, lw, rw))
  {
    match kind
    case Join(_, _, _, _) => JoinSame(kind, a[0], b[0], a[1], b[1], lw, rw);
    case Group(_, _, _, _) => GroupSame(kind, a[0], b[0]);
    case Set(op) =>
      SameRows(a[0], b[0]);
      SameRows(a[1], b[1]);
      assert a == [a[0], a[1]] && b == [b[0], b[1]];
      forall r ensures Net(EvalSet(op, a), r) == Net(EvalSet(op, b), r) {
        SetNet(op, a[0], a[1], r);
        SetNet(op, b[0], b[1], r);
      }
  }

  /** The touched part and the rest of the inputs evaluate apart, a group without GROUP
      BY excepted. */
  lemma EvalSplit(kind: Kind, a: seq<Bag>, lw: nat, rw: nat, keys: set<Row>, r: Row)
    requires Sides(kind, a) && !(kind.Group? && kind.keyless)
    ensures Net(EvalKeyed(kind, a, lw, rw), r) ==
            Net(EvalKeyed(kind, AllRestricted(kind, a, keys), lw, rw), r)
            + Net(EvalKeyed(kind, AllAway(kind, a, keys), lw, rw), r)
  {
    match kind
    case Join(_, _, _, _) => JoinSplit(kind, a[0], a[1], lw, rw, keys, r);
    case Group(_, _, _, _) => GroupSplit(kind, a[0], keys, r);
    case Set(op) =>
      var ain, aout := AllRestricted(kind, a, keys), AllAway(kind, a, keys);
      assert a == [a[0], a[1]] && ain == [ain[0], ain[1]] && aout == [aout[0], aout[1]];
      SetNet(op, a[0], a[1], r);
      SetNet(op, ain[0], ain[1], r);
      SetNet(op, aout[0], aout[1], r);
      RowsRestrict(a[0], x => KeyOf(kind, 0, x) in keys, r);
      RowsRestrict(a[1], x => KeyOf(kind, 1, x) in keys, r);
      RowsRestrict(a[0], x => KeyOf(kind, 0, x) !in keys, r);
      RowsRestrict(a[1], x => KeyOf(kind, 1, x) !in keys, r);
  }

  /** Without GROUP BY, one part is empty and still a group: the split holds exactly
      when a group over no row shows nothing. */
  lemma KeylessSplit(kind: Kind, s: Bag, keys: set<Row>)
    requires kind.Group? && kind.keyless
    ensures kind.aggregate(map[]) == [] <==> forall r ::
              Net(EvalGroup(kind, s), r) ==
              Net(EvalGroup(kind, RestrictTo(kind, 0, s, keys)), r)
              + Net(EvalGroup(kind, RestrictAway(kind, 0, s, keys)), r)
  {
    var none := EvalGroup(kind, []);
    assert Contents([]) == map[];
    if [] in keys {
      KeepsAll(s, x => KeyOf(kind, 0, x) in keys);
      KeepsNone(s, x => KeyOf(kind, 0, x) !in keys);
    } else {
      KeepsNone(s, x => KeyOf(kind, 0, x) in keys);
      KeepsAll(s, x => KeyOf(kind, 0, x) !in keys);
    }
    if none != [] {
      var r := none[0].row;
      assert RowsOf(none)[0] == r;
      NetPositive(none, r);
      assert Net(EvalGroup(kind, s), r) !=
             Net(EvalGroup(kind, RestrictTo(kind, 0, s, keys)), r)
             + Net(EvalGroup(kind, RestrictAway(kind, 0, s, keys)), r);
    }
  }

  lemma {:induction false} KeepsNone(s: Bag, keep: Row -> bool)
    requires forall x :: !keep(x)
    ensures Restrict(s, keep) == []
  {
    if s != [] {
      KeepsNone(s[1..], keep);
    }
  }

  /** The touched keys hold the key of every delta row, on every side. */
  ghost predicate Touches(kind: Kind, deltas: seq<Bag>, keys: set<Row>)
    requires Keyed(kind)
  {
    forall side, i | 0 <= side < |deltas| && 0 <= i < |deltas[side]| :: KeyOf(kind, side, deltas[side][i].row) in keys
  }

  ghost predicate AllDeltas(d: seq<Bag>, a: seq<Bag>, b: seq<Bag>) {
    |d| == |a| == |b| && forall side | 0 <= side < |d| :: IsDelta(d[side], a[side], b[side])
  }

  /** Recomputing the touched keys before and after gives the whole change. */
  lemma TouchedKeysExact(kind: Kind, a: seq<Bag>, b: seq<Bag>, d: seq<Bag>, lw: nat, rw: nat, keys: set<Row>)
    requires Sides(kind, a) && AllDeltas(d, a, b) && AllPositive(a) && AllPositive(b) && Touches(kind, d, keys)
    requires exists side :: 0 <= side < |d| && d[side] != []
    ensures forall r ::
      Net(EvalKeyed(kind, AllRestricted(kind, b, keys), lw, rw), r)
      - Net(EvalKeyed(kind, AllRestricted(kind, a, keys), lw, rw), r)
      == Net(EvalKeyed(kind, b, lw, rw), r) - Net(EvalKeyed(kind, a, lw, rw), r)
  {
    if kind.Group? && kind.keyless {
      assert [] in keys by { assert KeyOf(kind, 0, d[0][0].row) == []; }
      KeepsAll(a[0], x => KeyOf(kind, 0, x) in keys);
      KeepsAll(b[0], x => KeyOf(kind, 0, x) in keys);
      assert AllRestricted(kind, a, keys) == a;
      assert AllRestricted(kind, b, keys) == b;
    } else {
      var ao, bo := AllAway(kind, a, keys), AllAway(kind, b, keys);
      forall side | 0 <= side < |a| ensures Same(ao[side], bo[side]) && Positive(ao[side]) && Positive(bo[side]) {
        UntouchedSame(kind, side, a[side], b[side], d[side], keys);
        RestrictRows(a[side], x => KeyOf(kind, side, x) !in keys);
        RestrictRows(b[side], x => KeyOf(kind, side, x) !in keys);
      }
      EvalSame(kind, ao, bo, lw, rw);
      forall r ensures
        Net(EvalKeyed(kind, AllRestricted(kind, b, keys), lw, rw), r)
        - Net(EvalKeyed(kind, AllRestricted(kind, a, keys), lw, rw), r)
        == Net(EvalKeyed(kind, b, lw, rw), r) - Net(EvalKeyed(kind, a, lw, rw), r)
      {
        EvalSplit(kind, a, lw, rw, keys, r);
        EvalSplit(kind, b, lw, rw, keys, r);
      }
    }
  }

  lemma {:induction false} KeepsAll(s: Bag, keep: Row -> bool)
    requires forall x :: keep(x)
    ensures Restrict(s, keep) == s
  {
    if s != [] {
      KeepsAll(s[1..], keep);
      assert s == [s[0]] + s[1..];
    }
  }

  lemma UntouchedSame(kind: Kind, side: nat, a: Bag, b: Bag, d: Bag, keys: set<Row>)
    requires Keyed(kind) && IsDelta(d, a, b)
    requires forall i | 0 <= i < |d| :: KeyOf(kind, side, d[i].row) in keys
    ensures Same(RestrictAway(kind, side, a, keys), RestrictAway(kind, side, b, keys))
  {
    forall r | KeyOf(kind, side, r) !in keys ensures Net(a, r) == Net(b, r) {
      NetAbsent(d, r);
    }
    RestrictSame(a, b, x => KeyOf(kind, side, x) !in keys);
  }

  /** The before image of the touched keys: current minus delta, grouped. */
  function BeforeTouched(kind: Kind, side: nat, current: Bag, d: Bag, keys: set<Row>): Bag
    requires Keyed(kind)
  {
    Consolidate(RestrictTo(kind, side, current, keys) + Negated(RestrictTo(kind, side, d, keys)))
  }

  lemma BeforeTouchedExact(kind: Kind, side: nat, a: Bag, b: Bag, d: Bag, keys: set<Row>)
    requires Keyed(kind) && IsDelta(d, a, b) && Positive(a)
    ensures Same(BeforeTouched(kind, side, b, d, keys), RestrictTo(kind, side, a, keys))
    ensures Positive(BeforeTouched(kind, side, b, d, keys))
  {
    var keep := x => KeyOf(kind, side, x) in keys;
    var z := RestrictTo(kind, side, b, keys) + Negated(RestrictTo(kind, side, d, keys));
    ConsolidateSame(z);
    forall r ensures Net(z, r) == Net(RestrictTo(kind, side, a, keys), r) && Net(z, r) >= 0 {
      NetAppend(RestrictTo(kind, side, b, keys), Negated(RestrictTo(kind, side, d, keys)), r);
      NetNegated(RestrictTo(kind, side, d, keys), r);
      NetRestrict(a, keep, r);
      NetRestrict(b, keep, r);
      NetRestrict(d, keep, r);
      NetPositive(a, r);
    }
    ConsolidatePositive(z);
  }
}

/** Relational plans and what their nodes evaluate to, over weighted rows. */
module Plans {
  import opened Rows
  import opened Bags
  import opened Numbers
  import opened Datalog
  import opened Wrappers
  import Aggregate

  datatype JoinMode = Inner | LeftOuter | RightOuter | FullOuter | Semi | Anti

  datatype SetOp = All | Union | Except | Intersect

  /** Whether a group's statement unrolls copies: a window all of them, a LIMIT at most
      `limit + offset` of a row when `limit` is not negative. */
  datatype Expansion = Plain | Window | Limited(limit: int, offset: int)

  /** Scalar expressions are functions of the row. A join key is the list of its
      normalized key cells; a group aggregates the bag of one key. */
  datatype Kind =
    | Input(source: nat)
    | Map(project: Row -> Row, accepts: Row -> bool, columnsOnly: bool)
    | Join(mode: JoinMode, left: Row -> Row, right: Row -> Row, residual: Row -> bool)
    | Set(op: SetOp)
    | Group(keyless: bool, key: Row -> Row, aggregate: map<Row, int> -> seq<Row>, expansion: Expansion)
    | Fixpoint(rules: seq<Rule>)

  datatype Node = Node(kind: Kind, inputs: seq<nat>, width: nat)

  /** COUNT and SUM of an output group, and how a stored row shows a group's key,
      count and sums. */
  datatype Sums = Sums(query: Aggregate.Query, show: (Row, Aggregate.Group) -> Row, read: Row -> Aggregate.Group)

  /** `shown` reads the grouping key off a result row when the output is a group that
      projects its keys unchanged; `sums` marks the COUNT/SUM path. */
  datatype Plan = Plan(nodes: seq<Node>, output: nat, shown: Option<Row -> Row>, sums: Option<Sums>)

  predicate ArityOk(kind: Kind, inputs: nat) {
    match kind
    case Input(_) => inputs == 0
    case Map(_, _, _) => inputs == 1
    case Join(_, _, _, _) => inputs == 2
    case Set(All) => inputs > 0
    case Set(Union) => inputs == 1 || inputs == 2
    case Set(_) => inputs == 2
    case Group(_, _, _, _) => inputs == 1
    case Fixpoint(rules) => WellFormed(rules, inputs)
  }

  function OutputKind(plan: Plan): Kind
    requires plan.output < |plan.nodes|
  {
    plan.nodes[plan.output].kind
  }

  /** `push` appends a node after its inputs, and the output is never a bare source. */
  predicate ValidPlan(plan: Plan) {
    && plan.output < |plan.nodes|
    && !plan.nodes[plan.output].kind.Input?
    && (plan.shown.Some? ==> OutputKind(plan).Group? && !OutputKind(plan).expansion.Window?)
    && (plan.sums.Some? ==> plan.shown.Some? && OutputKind(plan).expansion.Plain?)
    && forall id | 0 <= id < |plan.nodes| ::
         && ArityOk(plan.nodes[id].kind, |plan.nodes[id].inputs|)
         && forall i | 0 <= i < |plan.nodes[id].inputs| :: plan.nodes[id].inputs[i] < id
  }

  // ------------------------------------------------------------------ evaluation

  function EvalMap(project: Row -> Row, accepts: Row -> bool, s: Bag): Bag {
    if s == [] then []
    else (if accepts(s[0].row) then [Weighted(project(s[0].row), s[0].m)] else []) + EvalMap(project, accepts, s[1..])
  }

  /** SQL `=` on every key cell: NULL matches nothing. */
  predicate KeysMatch(l: Row, r: Row) {
    l == r && Null !in l
  }

  predicate Joins(kind: Kind, l: Row, r: Row)
    requires kind.Join?
  {
    KeysMatch(kind.left(l), kind.right(r)) && kind.residual(l + r)
  }

  function JoinRow(kind: Kind, l: Row, m: int, s: Bag): Bag
    requires kind.Join?
  {
    if s == [] then []
    else (if Joins(kind, l, s[0].row) then [Weighted(l + s[0].row, m * s[0].m)] else []) + JoinRow(kind, l, m, s[1..])
  }

  function EvalInner(kind: Kind, l: Bag, r: Bag): Bag
    requires kind.Join?
  {
    if l == [] then [] else JoinRow(kind, l[0].row, l[0].m, r) + EvalInner(kind, l[1..], r)
  }

  predicate LeftMatched(kind: Kind, l: Row, r: Bag)
    requires kind.Join?
  {
    exists i :: 0 <= i < |r| && Joins(kind, l, r[i].row)
  }

  predicate RightMatched(kind: Kind, l: Bag, r: Row)
    requires kind.Join?
  {
    exists i :: 0 <= i < |l| && Joins(kind, l[i].row, r)
  }

  function Nulls(n: nat): Row {
    seq(n, _ => Null)
  }

  function EvalJoin(kind: Kind, l: Bag, r: Bag, leftWidth: nat, rightWidth: nat): Bag
    requires kind.Join?
  {
    var unmatchedLeft := EvalMap(x => x + Nulls(rightWidth), x => !LeftMatched(kind, x, r), l);
    var unmatchedRight := EvalMap(y => Nulls(leftWidth) + y, y => !RightMatched(kind, l, y), r);
    match kind.mode
    case Inner => EvalInner(kind, l, r)
    case LeftOuter => EvalInner(kind, l, r) + unmatchedLeft
    case RightOuter => EvalInner(kind, l, r) + unmatchedRight
    case FullOuter => EvalInner(kind, l, r) + unmatchedLeft + unmatchedRight
    case Semi => EvalMap(x => x, x => LeftMatched(kind, x, r), l)
    case Anti => EvalMap(x => x, x => !LeftMatched(kind, x, r), l)
  }

  /** The rows of a bag that hold every copy of one group. */
  function Restrict(s: Bag, keep: Row -> bool): Bag {
    if s == [] then [] else (if keep(s[0].row) then [s[0]] else []) + Restrict(s[1..], keep)
  }

  /** A bag as the map of its non-zero multiplicities. */
  function Contents(s: Bag): map<Row, int> {
    map r | r in RowsOf(s) && Net(s, r) != 0 :: Net(s, r)
  }

  function GroupRows(kind: Kind, s: Bag, k: Row): Bag
    requires kind.Group?
  {
    Weigh(kind.aggregate(Contents(Restrict(s, x => kind.key(x) == k))), 1)
  }

  function GroupKeys(kind: Kind, s: Bag): (keys: seq<Row>)
    requires kind.Group?
    ensures NoDuplicates(keys)
  {
    Distinct(seq(|s|, i requires 0 <= i < |s| => kind.key(s[i].row)))
  }

  function GroupsOf(kind: Kind, s: Bag, keys: seq<Row>): Bag
    requires kind.Group?
  {
    if keys == [] then [] else GroupRows(kind, s, keys[0]) + GroupsOf(kind, s, keys[1..])
  }

  /** Without GROUP BY there is one group, also over no row. */
  function EvalGroup(kind: Kind, s: Bag): Bag
    requires kind.Group?
  {
    if kind.keyless then Weigh(kind.aggregate(Contents(s)), 1)
    else GroupsOf(kind, s, GroupKeys(kind, s))
  }

  function Concat(bags: seq<Bag>): Bag {
    if bags == [] then [] else bags[0] + Concat(bags[1..])
  }

  function EvalSet(op: SetOp, bags: seq<Bag>): Bag
    requires |bags| > 0 && (op.Except? || op.Intersect? ==> |bags| == 2)
  {
    match op
    case All => Concat(bags)
    case Union => Weigh(Distinct(RowsOf(Concat(bags))), 1)
    case Except => EvalMap(x => x, x => x !in RowsOf(bags[1]), Weigh(Distinct(RowsOf(bags[0])), 1))
    case Intersect => EvalMap(x => x, x => x in RowsOf(bags[1]), Weigh(Distinct(RowsOf(bags[0])), 1))
  }

  // ----------------------------------------------------------- what evaluation nets

  lemma {:induction false} NetEvalMap(project: Row -> Row, accepts: Row -> bool, s: Bag, r: Row)
    ensures Net(EvalMap(project, accepts, s), r) == WSum(s, x => if accepts(x) && project(x) == r then 1 else 0)
  {
    if s != [] {
      var head := if accepts(s[0].row) then [Weighted(project(s[0].row), s[0].m)] else [];
      NetAppend(head, EvalMap(project, accepts, s[1..]), r);
      NetEvalMap(project, accepts, s[1..], r);
    }
  }

  /** A signed map or filter of the change is the change of the map. */
  lemma MapDelta(project: Row -> Row, accepts: Row -> bool, d: Bag, s: Bag, t: Bag)
    requires IsDelta(d, s, t)
    ensures IsDelta(EvalMap(project, accepts, d), EvalMap(project, accepts, s), EvalMap(project, accepts, t))
  {
    forall r ensures Net(EvalMap(project, accepts, d), r) ==
        Net(EvalMap(project, accepts, t), r) - Net(EvalMap(project, accepts, s), r) {
      NetEvalMap(project, accepts, d, r);
      NetEvalMap(project, accepts, s, r);
      NetEvalMap(project, accepts, t, r);
      WSumDelta(d, s, t, x => if accepts(x) && project(x) == r then 1 else 0);
    }
  }

  /** Whether the pair (l, r) contributes a copy of `x`. */
  function PairIs(kind: Kind, l: Row, r: Row, x: Row): int
    requires kind.Join?
  {
    if Joins(kind, l, r) && l + r == x then 1 else 0
  }

  lemma {:induction false} NetJoinRow(kind: Kind, l: Row, m: int, s: Bag, x: Row)
    requires kind.Join?
    ensures Net(JoinRow(kind, l, m, s), x) == m * WSum(s, y => PairIs(kind, l, y, x))
  {
    if s != [] {
      var g := y => PairIs(kind, l, y, x);
      var head := if Joins(kind, l, s[0].row) then [Weighted(l + s[0].row, m * s[0].m)] else [];
      NetAppend(head, JoinRow(kind, l, m, s[1..]), x);
      NetJoinRow(kind, l, m, s[1..], x);
      JoinHead(kind, l, m, s[0], x);
      Distributes(m, s[0].m * g(s[0].row), WSum(s[1..], g));
    }
  }

  lemma JoinHead(kind: Kind, l: Row, m: int, w: Weighted, x: Row)
    requires kind.Join?
    ensures Net(if Joins(kind, l, w.row) then [Weighted(l + w.row, m * w.m)] else [], x) ==
              m * (w.m * PairIs(kind, l, w.row, x))
  {
    if Joins(kind, l, w.row) {
      assert [Weighted(l + w.row, m * w.m)][1..] == [];
    }
  }

  /** An inner join is bilinear in its inputs. */
  lemma {:induction false} NetInner(kind: Kind, l: Bag, r: Bag, x: Row)
    requires kind.Join?
    ensures Net(EvalInner(kind, l, r), x) == WSum(l, y => WSum(r, z => PairIs(kind, y, z, x)))
  {
    if l != [] {
      NetAppend(JoinRow(kind, l[0].row, l[0].m, r), EvalInner(kind, l[1..], r), x);
      NetJoinRow(kind, l[0].row, l[0].m, r, x);
      NetInner(kind, l[1..], r, x);
    }
  }

  /** The three-term delta: both changed sides against the current other side,
      minus the pairs counted twice. */
  lemma JoinDelta(kind: Kind, dl: Bag, l0: Bag, l1: Bag, dr: Bag, r0: Bag, r1: Bag)
    requires kind.Join? && IsDelta(dl, l0, l1) && IsDelta(dr, r0, r1)
    ensures IsDelta(EvalInner(kind, dl, r1) + EvalInner(kind, l1, dr) + Negated(EvalInner(kind, dl, dr)),
                    EvalInner(kind, l0, r0), EvalInner(kind, l1, r1))
  {
    forall x ensures Net(EvalInner(kind, dl, r1) + EvalInner(kind, l1, dr) + Negated(EvalInner(kind, dl, dr)), x)
                  == Net(EvalInner(kind, l1, r1), x) - Net(EvalInner(kind, l0, r0), x)
    {
      NetAppend(EvalInner(kind, dl, r1) + EvalInner(kind, l1, dr), Negated(EvalInner(kind, dl, dr)), x);
      NetAppend(EvalInner(kind, dl, r1), EvalInner(kind, l1, dr), x);
      NetNegated(EvalInner(kind, dl, dr), x);
      InnerLeftDelta(kind, dl, l0, l1, r1, x);
      InnerLeftDelta(kind, dl, l0, l1, dr, x);
      InnerRightDelta(kind, l0, dr, r0, r1, x);
    }
  }

  lemma InnerLeftDelta(kind: Kind, dl: Bag, l0: Bag, l1: Bag, r: Bag, x: Row)
    requires kind.Join? && IsDelta(dl, l0, l1)
    ensures Net(EvalInner(kind, dl, r), x) == Net(EvalInner(kind, l1, r), x) - Net(EvalInner(kind, l0, r), x)
  {
    NetInner(kind, dl, r, x);
    NetInner(kind, l0, r, x);
    NetInner(kind, l1, r, x);
    WSumDelta(dl, l0, l1, y => WSum(r, z => PairIs(kind, y, z, x)));
  }

  lemma {:induction false} InnerRightDelta(kind: Kind, l: Bag, dr: Bag, r0: Bag, r1: Bag, x: Row)
    requires kind.Join? && IsDelta(dr, r0, r1)
    ensures Net(EvalInner(kind, l, dr), x) == Net(EvalInner(kind, l, r1), x) - Net(EvalInner(kind, l, r0), x)
  {
    if l != [] {
      var y, m := l[0].row, l[0].m;
      InnerRightDelta(kind, l[1..], dr, r0, r1, x);
      InnerStep(kind, l, dr, x);
      InnerStep(kind, l, r0, x);
      InnerStep(kind, l, r1, x);
      WSumDelta(dr, r0, r1, z => PairIs(kind, y, z, x));
      var a, b := WSum(r1, z => PairIs(kind, y, z, x)), WSum(r0, z => PairIs(kind, y, z, x));
      Distributes(m, a, b);
    }
  }

  lemma InnerStep(kind: Kind, l: Bag, r: Bag, x: Row)
    requires kind.Join? && l != []
    ensures Net(EvalInner(kind, l, r), x) ==
              l[0].m * WSum(r, z => PairIs(kind, l[0].row, z, x)) + Net(EvalInner(kind, l[1..], r), x)
  {
    NetAppend(JoinRow(kind, l[0].row, l[0].m, r), EvalInner(kind, l[1..], r), x);
    NetJoinRow(kind, l[0].row, l[0].m, r, x);
  }
}

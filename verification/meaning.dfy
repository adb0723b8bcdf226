/** What every node of a plan evaluates to over given sources, and how a change
    of a node's inputs becomes the change of its value. */
module Meaning {
  import opened Rows
  import opened Bags
  import opened Datalog
  import opened Rederive
  import opened Queries
  import opened Plans
  import opened Locality

  function InputValues(plan: Plan, vs: seq<Bag>, id: nat): (bags: seq<Bag>)
    requires ValidPlan(plan) && id < |plan.nodes| && id <= |vs|
    ensures |bags| == |plan.nodes[id].inputs|
    ensures forall i | 0 <= i < |bags| :: bags[i] == vs[plan.nodes[id].inputs[i]]
  {
    var inputs := plan.nodes[id].inputs;
    seq(|inputs|, i requires 0 <= i < |inputs| => vs[inputs[i]])
  }

  function InputWidth(plan: Plan, id: nat, side: nat): nat
    requires ValidPlan(plan) && id < |plan.nodes|
  {
    var inputs := plan.nodes[id].inputs;
    if side < |inputs| then plan.nodes[inputs[side]].width else 0
  }

  function EvalNode(kind: Kind, bags: seq<Bag>, leftWidth: nat, rightWidth: nat): Bag
    requires ArityOk(kind, |bags|) && !kind.Input? && !kind.Fixpoint?
  {
    match kind
    case Map(project, accepts, _) => EvalMap(project, accepts, bags[0])
    case Join(_, _, _, _) => EvalJoin(kind, bags[0], bags[1], leftWidth, rightWidth)
    case Set(op) => EvalSet(op, bags)
    case Group(_, _, _, _) => EvalGroup(kind, bags[0])
  }

  ghost function SetsOf(bags: seq<Bag>): (ins: Inputs)
    ensures |ins| == |bags|
  {
    seq(|bags|, i requires 0 <= i < |bags| => iset r | Net(bags[i], r) > 0)
  }

  function Indicator(b: bool): int {
    if b then 1 else 0
  }

  /** `vs[id]` is the node's value over the sources and its inputs' values. */
  ghost predicate Evaluates(plan: Plan, sources: seq<Bag>, vs: seq<Bag>, id: nat)
    requires ValidPlan(plan) && id < |plan.nodes| && id < |vs|
  {
    && Positive(vs[id])
    && match plan.nodes[id].kind
       case Input(source) => source < |sources| && Same(vs[id], sources[source])
       case Fixpoint(rules) => forall r ::
         Net(vs[id], r) == Indicator(r in Lfp(rules, SetsOf(InputValues(plan, vs, id))))
       case kind => Same(vs[id],
                         EvalNode(kind, InputValues(plan, vs, id), InputWidth(plan, id, 0), InputWidth(plan, id, 1)))
  }

  ghost predicate EvaluatesAll(plan: Plan, sources: seq<Bag>, vs: seq<Bag>)
    requires ValidPlan(plan) && |vs| <= |plan.nodes|
  {
    forall id: nat | id < |vs| :: Evaluates(plan, sources, vs, id)
  }

  // ----------------------------------------------------- evaluation sees only bags

  lemma MapPositive(project: Row -> Row, accepts: Row -> bool, s: Bag)
    requires Positive(s)
    ensures Positive(EvalMap(project, accepts, s))
  {
    if s != [] {
      MapPositive(project, accepts, s[1..]);
    }
  }

  lemma {:induction false} JoinRowPositive(kind: Kind, l: Row, m: int, s: Bag)
    requires kind.Join? && m > 0 && Positive(s)
    ensures Positive(JoinRow(kind, l, m, s))
  {
    if s != [] {
      JoinRowPositive(kind, l, m, s[1..]);
      assert m * s[0].m > 0;
    }
  }

  lemma {:induction false} InnerPositive(kind: Kind, l: Bag, r: Bag)
    requires kind.Join? && Positive(l) && Positive(r)
    ensures Positive(EvalInner(kind, l, r))
  {
    if l != [] {
      JoinRowPositive(kind, l[0].row, l[0].m, r);
      InnerPositive(kind, l[1..], r);
    }
  }

  lemma {:induction false} GroupsPositive(kind: Kind, s: Bag, keys: seq<Row>)
    requires kind.Group?
    ensures Positive(GroupsOf(kind, s, keys))
  {
    if keys != [] {
      GroupsPositive(kind, s, keys[1..]);
    }
  }

  lemma {:induction false} ConcatPositive(bags: seq<Bag>)
    requires AllPositive(bags)
    ensures Positive(Concat(bags))
  {
    if bags != [] {
      ConcatPositive(bags[1..]);
    }
  }

  /** Nodes evaluate actual copies to actual copies. */
  lemma EvalPositive(kind: Kind, bags: seq<Bag>, lw: nat, rw: nat)
    requires ArityOk(kind, |bags|) && !kind.Input? && !kind.Fixpoint? && AllPositive(bags)
    ensures Positive(EvalNode(kind, bags, lw, rw))
  {
    match kind
    case Map(project, accepts, _) => MapPositive(project, accepts, bags[0]);
    case Join(mode, _, _, _) =>
      var l, r := bags[0], bags[1];
      InnerPositive(kind, l, r);
      MapPositive(x => x + Nulls(rw), x => !LeftMatched(kind, x, r), l);
      MapPositive(y => Nulls(lw) + y, y => !RightMatched(kind, l, y), r);
      MapPositive(x => x, x => LeftMatched(kind, x, r), l);
      MapPositive(x => x, x => !LeftMatched(kind, x, r), l);
    case Set(op) =>
      ConcatPositive(bags);
      if op.Except? {
        MapPositive(x => x, x => x !in RowsOf(bags[1]), Weigh(Distinct(RowsOf(bags[0])), 1));
      } else if op.Intersect? {
        MapPositive(x => x, x => x in RowsOf(bags[1]), Weigh(Distinct(RowsOf(bags[0])), 1));
      }
    case Group(keyless, _, _, _) =>
      if !keyless { GroupsPositive(kind, bags[0], GroupKeys(kind, bags[0])); }
  }

  lemma {:induction false} ConcatDelta(d: seq<Bag>, a: seq<Bag>, b: seq<Bag>)
    requires AllDeltas(d, a, b)
    ensures IsDelta(Concat(d), Concat(a), Concat(b))
  {
    if d != [] {
      assert AllDeltas(d[1..], a[1..], b[1..]);
      ConcatDelta(d[1..], a[1..], b[1..]);
      forall r ensures Net(Concat(d), r) == Net(Concat(b), r) - Net(Concat(a), r) {
        NetAppend(d[0], Concat(d[1..]), r);
        NetAppend(a[0], Concat(a[1..]), r);
        NetAppend(b[0], Concat(b[1..]), r);
      }
    }
  }

  lemma {:induction false} ConcatRows(bags: seq<Bag>, x: Row)
    ensures x in RowsOf(Concat(bags)) <==> exists i :: 0 <= i < |bags| && x in RowsOf(bags[i])
  {
    if bags != [] {
      ConcatRows(bags[1..], x);
      assert RowsOf(Concat(bags)) == RowsOf(bags[0]) + RowsOf(Concat(bags[1..]));
      assert forall i | 0 <= i < |bags[1..]| :: bags[1..][i] == bags[i + 1];
    }
  }

  lemma UnionSame(a: seq<Bag>, b: seq<Bag>)
    requires |a| > 0 && AllSame(a, b) && AllPositive(a) && AllPositive(b)
    ensures Same(EvalSet(Union, a), EvalSet(Union, b))
  {
    forall r ensures Net(EvalSet(Union, a), r) == Net(EvalSet(Union, b), r) {
      DistinctNet(Concat(a), r);
      DistinctNet(Concat(b), r);
      ConcatRows(a, r);
      ConcatRows(b, r);
      forall i | 0 <= i < |a| ensures r in RowsOf(a[i]) <==> r in RowsOf(b[i]) {
        NetPositive(a[i], r);
        NetPositive(b[i], r);
      }
    }
  }

  /** A node's value depends on its inputs only as bags. */
  lemma EvalNodeSame(kind: Kind, a: seq<Bag>, b: seq<Bag>, lw: nat, rw: nat)
    requires ArityOk(kind, |a|) && !kind.Input? && !kind.Fixpoint? && AllSame(a, b) && AllPositive(a) && AllPositive(b)
    ensures Same(EvalNode(kind, a, lw, rw), EvalNode(kind, b, lw, rw))
  {
    match kind
    case Map(project, accepts, _) => MapDelta(project, accepts, [], a[0], b[0]);
    case Set(All) =>
      forall r ensures Net(Concat(a), r) == Net(Concat(b), r) {
        ConcatSame(a, b, r);
      }
    case Set(Union) => UnionSame(a, b);
    case _ => EvalSame(kind, a, b, lw, rw);
  }

  lemma {:induction false} ConcatSame(a: seq<Bag>, b: seq<Bag>, r: Row)
    requires AllSame(a, b)
    ensures Net(Concat(a), r) == Net(Concat(b), r)
  {
    if a != [] {
      assert AllSame(a[1..], b[1..]);
      ConcatSame(a[1..], b[1..], r);
      NetAppend(a[0], Concat(a[1..]), r);
      NetAppend(b[0], Concat(b[1..]), r);
    }
  }

  lemma SetsOfSame(a: seq<Bag>, b: seq<Bag>)
    requires AllSame(a, b)
    ensures SetsOf(a) == SetsOf(b)
  {
    forall i | 0 <= i < |a| ensures SetsOf(a)[i] == SetsOf(b)[i] {
      assert forall r :: Net(a[i], r) == Net(b[i], r);
    }
  }

  lemma InputsPositive(plan: Plan, sources: seq<Bag>, vs: seq<Bag>, id: nat)
    requires ValidPlan(plan) && id < |plan.nodes| && id <= |vs| <= |plan.nodes| && EvaluatesAll(plan, sources, vs)
    ensures AllPositive(InputValues(plan, vs, id))
  {
    forall i | 0 <= i < |plan.nodes[id].inputs| ensures Positive(InputValues(plan, vs, id)[i]) {
      assert Evaluates(plan, sources, vs, plan.nodes[id].inputs[i]);
    }
  }

  /** Evaluation is a function of the sources: any two evaluations agree. */
  lemma {:induction false} EvaluationUnique(plan: Plan, sources: seq<Bag>, a: seq<Bag>, b: seq<Bag>, id: nat)
    requires ValidPlan(plan) && id < |a| == |b| <= |plan.nodes|
    requires EvaluatesAll(plan, sources, a) && EvaluatesAll(plan, sources, b)
    ensures Same(a[id], b[id])
  {
    var node := plan.nodes[id];
    assert Evaluates(plan, sources, a, id) && Evaluates(plan, sources, b, id);
    var ia, ib := InputValues(plan, a, id), InputValues(plan, b, id);
    forall i | 0 <= i < |node.inputs| ensures Same(ia[i], ib[i]) {
      EvaluationUnique(plan, sources, a, b, node.inputs[i]);
    }
    match node.kind
    case Input(_) =>
    case Fixpoint(_) => SetsOfSame(ia, ib);
    case kind =>
      InputsPositive(plan, sources, a, id);
      InputsPositive(plan, sources, b, id);
      EvalNodeSame(kind, ia, ib, InputWidth(plan, id, 0), InputWidth(plan, id, 1));
  }

  // ------------------------------------------------------- the change of one node

  /** An inner join's statements: each changed side against the other as it is
      now, and the cross term when both changed. */
  function InnerDeltaRows(kind: Kind, d: seq<Bag>, now: seq<Bag>, touched: seq<bool>): Bag
    requires kind.Join? && |d| == |now| == |touched| == 2
  {
    (if touched[0] then EvalInner(kind, d[0], now[1]) else [])
    + (if touched[1] then EvalInner(kind, now[0], d[1]) else [])
    + (if touched[0] && touched[1] then Negated(EvalInner(kind, d[0], d[1])) else [])
  }

  lemma InnerDeltaExact(kind: Kind, d: seq<Bag>, a: seq<Bag>, b: seq<Bag>, touched: seq<bool>)
    requires kind.Join? && |d| == |touched| == 2 && AllDeltas(d, a, b)
    requires forall side | 0 <= side < 2 && !touched[side] :: d[side] == []
    ensures IsDelta(InnerDeltaRows(kind, d, b, touched), EvalInner(kind, a[0], a[1]), EvalInner(kind, b[0], b[1]))
  {
    JoinDelta(kind, d[0], a[0], b[0], d[1], a[1], b[1]);
    var left, right := EvalInner(kind, d[0], b[1]), EvalInner(kind, b[0], d[1]);
    var cross := Negated(EvalInner(kind, d[0], d[1]));
    var left', right' := if touched[0] then left else [], if touched[1] then right else [];
    var cross' := if touched[0] && touched[1] then cross else [];
    forall x ensures Net(left' + right' + cross', x) == Net(left + right + cross, x) {
      InnerOfNothing(kind, b[0], x);
      InnerOfNothing(kind, d[0], x);
      NetNegated(EvalInner(kind, d[0], d[1]), x);
      NetAppend(left + right, cross, x);
      NetAppend(left, right, x);
      NetAppend(left' + right', cross', x);
      NetAppend(left', right', x);
    }
  }

  function TouchedKeys(kind: Kind, d: seq<Bag>): (keys: set<Row>)
    requires Keyed(kind)
    ensures Touches(kind, d, keys)
  {
    set side, i | 0 <= side < |d| && 0 <= i < |d[side]| :: KeyOf(kind, side, d[side][i].row)
  }

  function AllBefore(kind: Kind, now: seq<Bag>, d: seq<Bag>, keys: set<Row>): (before: seq<Bag>)
    requires Sides(kind, now) && |d| == |now|
    ensures Sides(kind, before)
  {
    seq(|now|, side requires 0 <= side < |now| => BeforeTouched(kind, side, now[side], d[side], keys))
  }

  /** The before image computed from the current inputs and their deltas. */
  lemma BeforeImageExact(kind: Kind, d: seq<Bag>, a: seq<Bag>, b: seq<Bag>, lw: nat, rw: nat, keys: set<Row>)
    requires Sides(kind, a) && AllDeltas(d, a, b) && AllPositive(a)
    ensures
      var before := AllBefore(kind, b, d, keys);
      AllPositive(before)
      && Same(EvalKeyed(kind, before, lw, rw), EvalKeyed(kind, AllRestricted(kind, a, keys), lw, rw))
  {
    var before, part := AllBefore(kind, b, d, keys), AllRestricted(kind, a, keys);
    forall side | 0 <= side < |a|
      ensures Same(before[side], part[side]) && Positive(before[side]) && Positive(part[side]) {
      BeforeTouchedExact(kind, side, a[side], b[side], d[side], keys);
      RestrictRows(a[side], x => KeyOf(kind, side, x) in keys);
    }
    EvalSame(kind, before, part, lw, rw);
  }

  /** An arrangement's statements, however its images of the touched keys were
      obtained: the consolidated difference is the change of the node's value. */
  lemma KeyedDeltaExact(kind: Kind, d: seq<Bag>, a: seq<Bag>, b: seq<Bag>, lw: nat, rw: nat, before: Bag, after: Bag)
    requires Sides(kind, a) && AllDeltas(d, a, b) && AllPositive(a) && AllPositive(b)
    requires exists side :: 0 <= side < |d| && d[side] != []
    requires Same(before, EvalKeyed(kind, AllRestricted(kind, a, TouchedKeys(kind, d)), lw, rw))
    requires Same(after, EvalKeyed(kind, AllRestricted(kind, b, TouchedKeys(kind, d)), lw, rw))
    ensures IsDelta(Consolidate(after + Negated(before)), EvalKeyed(kind, a, lw, rw), EvalKeyed(kind, b, lw, rw))
  {
    TouchedKeysExact(kind, a, b, d, lw, rw, TouchedKeys(kind, d));
    ConsolidateSame(after + Negated(before));
    forall r
      ensures Net(Consolidate(after + Negated(before)), r) ==
                Net(EvalKeyed(kind, b, lw, rw), r) - Net(EvalKeyed(kind, a, lw, rw), r) {
      NetAppend(after, Negated(before), r);
      NetNegated(before, r);
    }
  }

  // ------------------------------------------------- recursive nodes compare by equality

  /** Rows as their own keys leave the rules as they are. */
  lemma ItselfMeans(rules: seq<Rule>, sides: nat, ins: Inputs)
    requires WellFormed(rules, sides)
    ensures Lfp(CanonAll(rules, Itself), ins) == Lfp(rules, ins)
    ensures StepSides(CanonAll(rules, Itself)) == StepSides(rules)
  {
    var canon := CanonAll(rules, Itself);
    ItselfAlike(rules, canon);
    ItselfAlike(canon, rules);
    LfpWithin(rules, canon, ins);
    LfpWithin(canon, rules, ins);
    forall side: nat ensures IsStepSide(canon, side) <==> IsStepSide(rules, side) {
      if r :| 0 <= r < |rules| && HasMember(rules[r]) && Mentions(rules[r], side) {
        assert canon[r].occurrences == rules[r].occurrences;
      }
      if r :| 0 <= r < |canon| && HasMember(canon[r]) && Mentions(canon[r], side) {
        assert canon[r].occurrences == rules[r].occurrences;
      }
    }
  }

  ghost predicate Alike(a: seq<Rule>, b: seq<Rule>) {
    |a| == |b| && forall r | 0 <= r < |a| ::
      a[r].occurrences == b[r].occurrences && a[r].accepts == b[r].accepts && forall t :: a[r].head(t) == b[r].head(t)
  }

  lemma ItselfAlike(a: seq<Rule>, b: seq<Rule>)
    requires b == CanonAll(a, Itself) || a == CanonAll(b, Itself)
    ensures Alike(a, b)
  {
  }

  lemma LfpWithin(a: seq<Rule>, b: seq<Rule>, ins: Inputs)
    requires Alike(a, b)
    ensures Lfp(a, ins) <= Lfp(b, ins)
  {
    var m := Lfp(b, ins);
    LfpClosed(b, ins);
    forall x | Concludes(a, ins, m, x) ensures x in m {
      AlikeConcludes(a, b, ins, m, x);
    }
    LfpLeast(a, ins, m);
  }

  lemma AlikeConcludes(a: seq<Rule>, b: seq<Rule>, ins: Inputs, m: iset<Row>, x: Row)
    requires Alike(a, b) && Concludes(a, ins, m, x)
    ensures Concludes(b, ins, m, x)
  {
    if Base(a, ins, x) {
      var r, t :| 0 <= r < |a| && !HasMember(a[r]) && Fires(a[r], t, ins) && a[r].head(t) == x;
      assert Fires(b[r], t, ins) && !HasMember(b[r]) && b[r].head(t) == x;
    } else {
      var p :| p in m && Edge(a, ins, p, x);
      var r, t :| 0 <= r < |a| && HasMember(a[r]) && Fires(a[r], t, ins) && Reads(a[r], t, p) && a[r].head(t) == x;
      assert Fires(b[r], t, ins) && HasMember(b[r]) && Reads(b[r], t, p) && b[r].head(t) == x;
      assert Edge(b, ins, p, x);
    }
  }
}

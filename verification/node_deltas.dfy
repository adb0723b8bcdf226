/** The persistent state behind one node, and why what its statements write is
    the change of the node's value. */
module NodeDeltas {
  import opened Rows
  import opened Bags
  import opened Datalog
  import opened Rederive
  import opened Queries
  import opened Tables
  import opened FixpointStatements
  import opened Fixpoint
  import opened Plans
  import opened Locality
  import opened Meaning
  import opened SetMembership

  function RightOf(bags: seq<Bag>): Bag {
    if |bags| == 2 then bags[1] else []
  }

  /** Support counts describe the inputs; members are the least fixpoint. */
  ghost predicate StateOk(kind: Kind, support: State, members: Table, bags: seq<Bag>)
    requires ArityOk(kind, |bags|)
  {
    match kind
    case Set(Union) => Faithful(Itself, support, bags[0], RightOf(bags))
    case Fixpoint(rules) => Tables.Valid(members, Itself) && Keys(members, Itself) == Lfp(rules, SetsOf(bags))
    case _ => true
  }

  /** The hypothesis on a batch: each recursive node may process its sides one by one. */
  ghost predicate SafeNode(kind: Kind, before: seq<Bag>, now: seq<Bag>)
    requires |before| == |now|
  {
    kind.Fixpoint? ==> SafeBatch(StepSides(kind.rules), SetsOf(before), SetsOf(now))
  }

  /** Every rule respects rows as their own keys. */
  lemma ItselfRespected(rules: seq<Rule>, sides: nat)
    requires WellFormed(rules, sides)
    ensures RulesOk(rules, sides, Itself)
  {
    forall r | 0 <= r < |rules| ensures Respects(rules[r], Itself) {
      forall t, u | KeyEqual(rules[r], Itself, t, u)
        ensures rules[r].accepts(t) == rules[r].accepts(u) && Itself(rules[r].head(t)) == Itself(rules[r].head(u))
      {
        assert t == u;
      }
    }
  }

  lemma ShownIsUnion(support: State, bags: seq<Bag>, x: Row)
    requires ArityOk(Set(Union), |bags|) && AllPositive(bags) && Faithful(Itself, support, bags[0], RightOf(bags))
    ensures Shown(Itself, support, x) == Net(EvalSet(Union, bags), x)
  {
    ShownIsDistinct(Itself, support, bags[0], RightOf(bags), x);
    assert Concat(bags) == bags[0] + RightOf(bags) by {
      if |bags| == 2 {
        assert Concat(bags[1..]) == bags[1];
      }
    }
  }

  function SidesOf(now: seq<Bag>, d: seq<Bag>): (sides: seq<Side>)
    requires |d| == |now|
    ensures |sides| == |now| && forall i | 0 <= i < |sides| :: sides[i] == Side(now[i], d[i])
  {
    seq(|now|, i requires 0 <= i < |now| => Side(now[i], d[i]))
  }

  lemma SidesOfOk(a: seq<Bag>, b: seq<Bag>, d: seq<Bag>)
    requires AllDeltas(d, a, b) && AllPositive(a) && AllPositive(b)
    ensures SidesOk(SidesOf(b, d)) && Before(SidesOf(b, d)) == SetsOf(a) && After(SidesOf(b, d)) == SetsOf(b)
  {
    var sides := SidesOf(b, d);
    forall i | 0 <= i < |sides|
      ensures SideOk(sides[i]) && Before(sides)[i] == SetsOf(a)[i] && After(sides)[i] == SetsOf(b)[i] {
      forall r ensures Net(b[i], r) - Net(d[i], r) == Net(a[i], r) && Net(a[i], r) >= 0 {
        NetPositive(a[i], r);
      }
    }
  }

  /** A drained recursive node holds the least fixpoint of its inputs as they are now. */
  lemma DrainedMembers(rules: seq<Rule>, a: seq<Bag>, b: seq<Bag>, d: seq<Bag>, was: Table, now: Table)
    requires WellFormed(rules, |a|) && AllDeltas(d, a, b) && AllPositive(a) && AllPositive(b)
    requires StateOk(Plans.Fixpoint(rules), map[], was, a) && SafeNode(Plans.Fixpoint(rules), a, b)
    requires
      var sides := SidesOf(b, d);
      Keys(now, Itself) == AfterSides(CanonAll(rules, Itself), Before(sides), After(sides), Keys(was, Itself), |sides|)
    ensures Keys(now, Itself) == Lfp(rules, SetsOf(b))
  {
    var sides := SidesOf(b, d);
    SidesOfOk(a, b, d);
    ItselfMeans(rules, |a|, SetsOf(a));
    ItselfMeans(rules, |a|, SetsOf(b));
    DrainedMeaning(CanonAll(rules, Itself), sides, Keys(was, Itself), Keys(now, Itself));
  }

  /** Rows as their own keys leave closedness as it is. */
  lemma ItselfClosed(rules: seq<Rule>, ins: Inputs, s: iset<Row>)
    requires Closed(rules, ins, s)
    ensures Closed(CanonAll(rules, Itself), ins, s)
  {
    var canon := CanonAll(rules, Itself);
    ItselfAlike(canon, rules);
    forall x | Concludes(canon, ins, s, x) ensures x in s {
      AlikeConcludes(canon, rules, ins, s, x);
    }
  }

  /** A set that bounds the drain of a recursive node bounds it for the node's own rules. */
  lemma ClosedDrainFits(rules: seq<Rule>, a: seq<Bag>, b: seq<Bag>, d: seq<Bag>, was: Table, universe: set<Row>)
    requires WellFormed(rules, |a|) && AllDeltas(d, a, b) && AllPositive(a) && AllPositive(b)
    requires StateOk(Plans.Fixpoint(rules), map[], was, a)
    requires RoundsFit(Lfp(rules, SetsOf(a)), universe) && Closed(rules, SetsOf(b), iset x | x in universe)
    ensures DrainFits(CanonAll(rules, Itself), SidesOf(b, d), Keys(was, Itself), universe)
  {
    SidesOfOk(a, b, d);
    ItselfClosed(rules, SetsOf(b), iset x | x in universe);
    ClosedFits(CanonAll(rules, Itself), SidesOf(b, d), Keys(was, Itself), universe);
  }

  lemma MemberCount(t: Table, r: Row)
    ensures Count(t.entries, r) == Indicator(r in Keys(t, Itself))
  {
    if r in EntryRows(t.entries) {
      var i :| 0 <= i < |EntryRows(t.entries)| && EntryRows(t.entries)[i] == r;
      assert Itself(t.entries[i].row) == r;
    }
    if HasKey(t.entries, Itself, r) {
      var i :| 0 <= i < |t.entries| && Itself(t.entries[i].row) == r;
      assert EntryRows(t.entries)[i] == r;
    }
  }

  // ----------------------------------------------------------- change of a node's value

  /** Whatever the node evaluates to now, `out` leads there from its old value. */
  ghost predicate IsChange(plan: Plan, sources: seq<Bag>, was: seq<Bag>, now: seq<Bag>, id: nat, out: Bag)
    requires ValidPlan(plan) && id < |plan.nodes| && id == |now| && id < |was|
  {
    forall v | Evaluates(plan, sources, now + [v], id) :: IsDelta(out, was[id], v)
  }

  lemma SameInputs(plan: Plan, now: seq<Bag>, v: Bag, id: nat)
    requires ValidPlan(plan) && id < |plan.nodes| && id == |now|
    ensures InputValues(plan, now + [v], id) == InputValues(plan, now, id)
  {
  }

  lemma ComputedChange(plan: Plan, sources0: seq<Bag>, sources: seq<Bag>, was: seq<Bag>, now: seq<Bag>, id: nat,
                       out: Bag)
    requires ValidPlan(plan) && id < |plan.nodes| && id == |now| && id < |was|
    requires !plan.nodes[id].kind.Input? && !plan.nodes[id].kind.Fixpoint? && Evaluates(plan, sources0, was, id)
    requires
      var kind := plan.nodes[id].kind;
      var lw, rw := InputWidth(plan, id, 0), InputWidth(plan, id, 1);
      IsDelta(out, EvalNode(kind, InputValues(plan, was, id), lw, rw),
              EvalNode(kind, InputValues(plan, now, id), lw, rw))
    ensures IsChange(plan, sources, was, now, id, out)
  {
    forall v | Evaluates(plan, sources, now + [v], id) ensures IsDelta(out, was[id], v) {
      SameInputs(plan, now, v, id);
    }
  }

  lemma MembersChange(plan: Plan, sources0: seq<Bag>, sources: seq<Bag>, was: seq<Bag>, now: seq<Bag>, id: nat,
                      t0: Table, t1: Table, out: Bag)
    requires ValidPlan(plan) && id < |plan.nodes| && id == |now| && id < |was|
    requires plan.nodes[id].kind.Fixpoint? && Evaluates(plan, sources0, was, id)
    requires Keys(t0, Itself) == Lfp(plan.nodes[id].kind.rules, SetsOf(InputValues(plan, was, id)))
    requires Keys(t1, Itself) == Lfp(plan.nodes[id].kind.rules, SetsOf(InputValues(plan, now, id)))
    requires forall r :: Net(out, r) == Count(t1.entries, r) - Count(t0.entries, r)
    ensures IsChange(plan, sources, was, now, id, out)
  {
    forall v | Evaluates(plan, sources, now + [v], id) ensures IsDelta(out, was[id], v) {
      SameInputs(plan, now, v, id);
      forall r ensures Net(out, r) == Net(v, r) - Net(was[id], r) {
        MemberCount(t0, r);
        MemberCount(t1, r);
      }
    }
  }

  /** Unchanged inputs, unchanged value. */
  lemma UnchangedNode(plan: Plan, sources0: seq<Bag>, sources: seq<Bag>, was: seq<Bag>, now: seq<Bag>, id: nat,
                      support: State, members: Table)
    requires ValidPlan(plan) && id < |plan.nodes| && id == |now| && |was| == |plan.nodes|
    requires EvaluatesAll(plan, sources0, was) && EvaluatesAll(plan, sources, now) && !plan.nodes[id].kind.Input?
    requires AllSame(InputValues(plan, was, id), InputValues(plan, now, id))
    requires StateOk(plan.nodes[id].kind, support, members, InputValues(plan, was, id))
    ensures IsChange(plan, sources, was, now, id, [])
    ensures StateOk(plan.nodes[id].kind, support, members, InputValues(plan, now, id))
  {
    var kind := plan.nodes[id].kind;
    var a, b := InputValues(plan, was, id), InputValues(plan, now, id);
    assert Evaluates(plan, sources0, was, id);
    InputsPositive(plan, sources0, was, id);
    InputsPositive(plan, sources, now, id);
    SetsOfSame(a, b);
    if kind.Fixpoint? {
      MembersChange(plan, sources0, sources, was, now, id, members, members, []);
    } else {
      EvalNodeSame(kind, a, b, InputWidth(plan, id, 0), InputWidth(plan, id, 1));
      ComputedChange(plan, sources0, sources, was, now, id, []);
      if kind.Set? && kind.op.Union? {
        FaithfulSame(support, a, b);
      }
    }
  }

  lemma FaithfulSame(support: State, a: seq<Bag>, b: seq<Bag>)
    requires ArityOk(Set(Union), |a|) && AllSame(a, b) && Faithful(Itself, support, a[0], RightOf(a))
    ensures Faithful(Itself, support, b[0], RightOf(b))
  {
    forall k ensures FaithfulAt(Itself, support, b[0], RightOf(b), k) {
      assert FaithfulAt(Itself, support, a[0], RightOf(a), k);
      CopiesChange(Itself, [], a[0], b[0], k);
      CopiesChange(Itself, [], RightOf(a), RightOf(b), k);
    }
  }

  // ----------------------------------------------------------- a node's value from scratch

  lemma NextEvaluates(plan: Plan, sources: seq<Bag>, live: seq<Bag>, rows: Bag)
    requires ValidPlan(plan) && |live| < |plan.nodes| && EvaluatesAll(plan, sources, live)
    requires Evaluates(plan, sources, live + [rows], |live|)
    ensures EvaluatesAll(plan, sources, live + [rows])
  {
    forall id: nat | id < |live| ensures Evaluates(plan, sources, live + [rows], id) {
      assert Evaluates(plan, sources, live, id);
      assert InputValues(plan, live + [rows], id) == InputValues(plan, live, id);
    }
  }

  /** What a node computes from tables that hold its inputs' values is its value. */
  lemma ComputedNext(plan: Plan, sources: seq<Bag>, live: seq<Bag>, t: seq<Bag>, out: Bag)
    requires ValidPlan(plan) && |live| < |plan.nodes| && EvaluatesAll(plan, sources, live)
    requires !plan.nodes[|live|].kind.Input? && !plan.nodes[|live|].kind.Fixpoint?
    requires AllPositive(t) && AllSame(t, InputValues(plan, live, |live|)) && Positive(out)
    requires Same(out, EvalNode(plan.nodes[|live|].kind, t, InputWidth(plan, |live|, 0), InputWidth(plan, |live|, 1)))
    ensures EvaluatesAll(plan, sources, live + [out])
  {
    var id := |live|;
    InputsPositive(plan, sources, live, id);
    EvalNodeSame(plan.nodes[id].kind, t, InputValues(plan, live, id), InputWidth(plan, id, 0),
                 InputWidth(plan, id, 1));
    SameInputs(plan, live, out, id);
    NextEvaluates(plan, sources, live, out);
  }

  /** The inputs of a node from which its population expects no row. */
  predicate NothingToRead(kind: Kind, bags: seq<Bag>)
    requires ArityOk(kind, |bags|)
  {
    match kind
    case Map(_, _, _) => bags[0] == []
    case Join(mode, _, _, _) => mode.Inner? && (bags[0] == [] || bags[1] == [])
    case Set(_) => forall i | 0 <= i < |bags| :: bags[i] == []
    case _ => false
  }

  lemma {:induction false} ConcatOfNothing(bags: seq<Bag>)
    requires forall i | 0 <= i < |bags| :: bags[i] == []
    ensures Concat(bags) == []
  {
    if bags != [] {
      ConcatOfNothing(bags[1..]);
    }
  }

  lemma NothingEvaluates(kind: Kind, bags: seq<Bag>, lw: nat, rw: nat)
    requires ArityOk(kind, |bags|) && NothingToRead(kind, bags)
    ensures Same([], EvalNode(kind, bags, lw, rw))
  {
    if kind.Join? {
      forall x ensures Net(EvalNode(kind, bags, lw, rw), x) == 0 {
        InnerOfNothing(kind, bags[0], x);
      }
    } else if kind.Set? {
      ConcatOfNothing(bags);
    }
  }

  predicate OthersEmpty(bags: seq<Bag>) {
    forall i | 1 <= i < |bags| :: bags[i] == []
  }

  /** A populated UNION ALL node shows its first input only: that is its value exactly
      when its other inputs are empty. */
  lemma UnionAllPopulation(bags: seq<Bag>)
    requires ArityOk(Set(All), |bags|) && AllPositive(bags)
    ensures Same(bags[0], EvalSet(All, bags)) <==> OthersEmpty(bags)
  {
    var rest := Concat(bags[1..]);
    assert forall i | 0 <= i < |bags[1..]| :: bags[1..][i] == bags[i + 1];
    ConcatPositive(bags[1..]);
    if Same(bags[0], EvalSet(All, bags)) {
      forall x ensures Net(rest, x) == 0 {
        NetAppend(bags[0], rest, x);
      }
      forall i | 1 <= i < |bags| ensures bags[i] == [] {
        if bags[i] != [] {
          var x := bags[i][0].row;
          assert RowsOf(bags[1..][i - 1])[0] == x;
          ConcatRows(bags[1..], x);
          NetPositive(rest, x);
        }
      }
    }
    if OthersEmpty(bags) {
      ConcatOfNothing(bags[1..]);
      assert EvalSet(All, bags) == bags[0] + [] == bags[0];
    }
  }

  /** So copying a table that holds the first input is evaluating the node. */
  lemma CopiedFirst(kind: Kind, first: Bag, bags: seq<Bag>)
    requires kind.Map? || (kind.Set? && kind.op.All? && OthersEmpty(bags))
    requires ArityOk(kind, |bags|) && AllPositive(bags) && Positive(first) && Same(first, bags[0])
    ensures Same(EvalNode(kind, [first], 0, 0), EvalNode(kind, bags, 0, 0))
  {
    if kind.Map? {
      EvalNodeSame(kind, [first], bags, 0, 0);
    } else {
      UnionAllPopulation([first]);
      UnionAllPopulation(bags);
      assert Same([first][0], EvalSet(All, [first])) && Same(bags[0], EvalSet(All, bags));
    }
  }
}

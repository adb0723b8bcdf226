/** What a run of the drain writes at every node, and the checks it makes on the
    way: the seed, multiplicity, group, round and result budgets. */
module Runs {
  import opened Rows
  import opened Bags
  import opened Datalog
  import opened Rederive
  import Tables
  import opened Queries
  import opened Fixpoint
  import opened FixpointStatements
  import opened Plans
  import opened Locality
  import opened Meaning
  import opened Materialize
  import opened SetMembership
  import opened NodeDeltas
  import opened GroupOutput
  import opened Wrappers
  import ApplyState

  const SEED_STATEMENT_BUDGET: nat := 1_000_000

  /** One staged source row: its table, cells and signed multiplicity. */
  datatype Staged = Staged(source: nat, row: Row, m: int)

  function SeedRows(batch: seq<Staged>, source: nat): Bag {
    if batch == [] then []
    else
      (if batch[0].source == source && batch[0].m != 0 then [Weighted(batch[0].row, batch[0].m)] else [])
      + SeedRows(batch[1..], source)
  }

  lemma {:induction false} SeedRowsPrefix(batch: seq<Staged>, i: nat, source: nat)
    requires i <= |batch|
    ensures |SeedRows(batch[..i], source)| <= |SeedRows(batch, source)|
    decreases |batch| - i
  {
    if i < |batch| {
      assert batch[..i + 1] == batch[..i] + [batch[i]];
      SeedRowsSnoc(batch[..i], batch[i], source);
      SeedRowsPrefix(batch, i + 1, source);
    } else {
      assert batch[..i] == batch;
    }
  }

  lemma {:induction false} SeedRowsSnoc(batch: seq<Staged>, staged: Staged, source: nat)
    ensures SeedRows(batch + [staged], source) ==
            SeedRows(batch, source)
            + if staged.source == source && staged.m != 0 then [Weighted(staged.row, staged.m)] else []
  {
    if batch == [] {
      assert batch + [staged] == [staged];
      assert [staged][1..] == [];
    } else {
      assert (batch + [staged])[1..] == batch[1..] + [staged];
      SeedRowsSnoc(batch[1..], staged, source);
    }
  }

  /** A join that only groups read, directly or through column projections, is
      left unconsolidated. */
  function GroupConsumersConsolidate(plan: Plan, id: nat): bool
    requires ValidPlan(plan)
    decreases |plan.nodes| - id
  {
    && id < |plan.nodes| && id != plan.output
    && (exists c :: id < c < |plan.nodes| && id in plan.nodes[c].inputs)
    && (forall c | id < c < |plan.nodes| && id in plan.nodes[c].inputs ::
          match plan.nodes[c].kind
          case Group(_, _, _, _) => true
          case Map(_, _, true) => GroupConsumersConsolidate(plan, c)
          case _ => false)
  }

  /** The least fixpoint hypothesis over a whole plan. */
  ghost predicate SafePlan(plan: Plan, was: seq<Bag>, sources: seq<Bag>)
    requires ValidPlan(plan) && |was| == |plan.nodes|
  {
    forall now: seq<Bag> | |now| < |plan.nodes| && EvaluatesAll(plan, sources, now) ::
      SafeNode(plan.nodes[|now|].kind, InputValues(plan, was, |now|), InputValues(plan, now, |now|))
  }

  predicate IsUnionAll(plan: Plan, id: nat)
    requires id < |plan.nodes|
  {
    plan.nodes[id].kind.Set? && plan.nodes[id].kind.op.All?
  }

  /** Every multiplicity is an integer to SQLite: none has overflowed into a REAL. */
  predicate Integers(s: Bag) {
    forall i | 0 <= i < |s| :: -MAX_INTEGER - 1 <= s[i].m <= MAX_INTEGER
  }

  /** The budgets of an arrangement's statements over the touched keys, before and after. */
  predicate BeforeFits(plan: Plan, live: seq<Bag>, d: seq<Bag>, id: nat)
    requires ValidPlan(plan) && id < |plan.nodes| && id <= |live| && |d| == |plan.nodes[id].inputs|
    requires Keyed(plan.nodes[id].kind)
  {
    var kind := plan.nodes[id].kind;
    WithinBudgets(kind, AllBefore(kind, InputValues(plan, live, id), d, TouchedKeys(kind, d)), InputWidth(plan, id, 0),
                  InputWidth(plan, id, 1))
  }

  predicate AfterFits(plan: Plan, live: seq<Bag>, d: seq<Bag>, id: nat)
    requires ValidPlan(plan) && id < |plan.nodes| && id <= |live| && |d| == |plan.nodes[id].inputs|
    requires Keyed(plan.nodes[id].kind)
  {
    var kind := plan.nodes[id].kind;
    WithinBudgets(kind, AllRestricted(kind, InputValues(plan, live, id), TouchedKeys(kind, d)), InputWidth(plan, id, 0),
                  InputWidth(plan, id, 1))
  }

  /** An output whose statements end by consolidating: all but maps, UNION ALL and
      recursive nodes. */
  predicate Settles(plan: Plan, id: nat)
    requires ValidPlan(plan) && id < |plan.nodes|
  {
    id == plan.output && (Keyed(plan.nodes[id].kind) || (plan.nodes[id].kind.Set? && plan.nodes[id].kind.op.Union?))
  }

  /** A caller who only writes to plans whose recursive nodes have one input never
      has to look at the batch. */
  lemma OneSidedIsSafe(plan: Plan, was: seq<Bag>, sources: seq<Bag>)
    requires ValidPlan(plan) && |was| == |plan.nodes|
    requires forall id | 0 <= id < |plan.nodes| && plan.nodes[id].kind.Fixpoint? :: |plan.nodes[id].inputs| <= 1
    ensures SafePlan(plan, was, sources)
  {
  }

  /** Population copies the first input of a UNION ALL node; the others must have no row. */
  ghost predicate CopiesFirst(plan: Plan, sources: seq<Bag>)
    requires ValidPlan(plan)
  {
    forall live: seq<Bag> | |live| < |plan.nodes| && EvaluatesAll(plan, sources, live) && IsUnionAll(plan, |live|) ::
      OthersEmpty(InputValues(plan, live, |live|))
  }

  /** In particular where every UNION ALL node has one input. */
  lemma OneInputCopiesFirst(plan: Plan, sources: seq<Bag>)
    requires ValidPlan(plan)
    requires forall id | 0 <= id < |plan.nodes| && IsUnionAll(plan, id) :: |plan.nodes[id].inputs| == 1
    ensures CopiesFirst(plan, sources)
  {
  }

  /** Every table held the change of its node's value. */
  ghost predicate AllChanged(outs: seq<Bag>, was: seq<Bag>, now: seq<Bag>) {
    |outs| == |now| <= |was| && forall id | 0 <= id < |outs| :: IsDelta(outs[id], was[id], now[id])
  }

  lemma AllChangedSnoc(outs: seq<Bag>, was: seq<Bag>, now: seq<Bag>, out: Bag, v: Bag)
    requires AllChanged(outs, was, now) && |now| < |was| && IsDelta(out, was[|now|], v)
    ensures AllChanged(outs + [out], was, now + [v])
  {
  }

  // ---------------------------------------------------------------- what is written

  predicate Quiet(d: seq<Bag>) {
    forall i | 0 <= i < |d| :: d[i] == []
  }

  function TouchedBy(d: seq<Bag>): seq<bool> {
    seq(|d|, i requires 0 <= i < |d| => d[i] != [])
  }

  /** What the statements of a node with a changed input may write. */
  ghost predicate Writes(plan: Plan, live: seq<Bag>, d: seq<Bag>, id: nat, out: Bag)
    requires ValidPlan(plan) && id < |plan.nodes| && id <= |live| && |d| == |plan.nodes[id].inputs|
    requires !plan.nodes[id].kind.Input?
  {
    var kind := plan.nodes[id].kind;
    if kind.Map? then out == EvalMap(kind.project, kind.accepts, d[0])
    else if IsUnionAll(plan, id) then out == Concat(d)
    else if kind.Fixpoint? then Units(out)
    else if kind.Join? && kind.mode.Inner? then
      var z := InnerDeltaRows(kind, d, InputValues(plan, live, id), TouchedBy(d));
      out == if GroupConsumersConsolidate(plan, id) then z else Consolidate(z)
    else Consolidated(out)
  }

  /** A source's rows are those staged; a node with unchanged inputs writes nothing. */
  ghost predicate WritesAt(plan: Plan, batch: seq<Staged>, live: seq<Bag>, outs: seq<Bag>, id: nat)
    requires ValidPlan(plan) && id < |plan.nodes| && id < |outs| && id <= |live|
  {
    var kind := plan.nodes[id].kind;
    var d := InputValues(plan, outs, id);
    if kind.Input? then outs[id] == SeedRows(batch, kind.source)
    else if Quiet(d) then outs[id] == []
    else Writes(plan, live, d, id, outs[id])
  }

  /** The nodes up to here have the values `live`, and wrote `outs`. */
  ghost predicate Run(plan: Plan, sources: seq<Bag>, was: seq<Bag>, batch: seq<Staged>, live: seq<Bag>,
                      outs: seq<Bag>)
    requires ValidPlan(plan) && |was| == |plan.nodes|
  {
    && |live| == |outs| <= |plan.nodes| && EvaluatesAll(plan, sources, live) && AllChanged(outs, was, live)
    && forall id: nat | id < |outs| :: WritesAt(plan, batch, live, outs, id)
  }

  lemma RunSnoc(plan: Plan, sources: seq<Bag>, was: seq<Bag>, batch: seq<Staged>, live: seq<Bag>, outs: seq<Bag>,
                v: Bag, out: Bag)
    requires ValidPlan(plan) && |was| == |plan.nodes| && |live| < |plan.nodes|
    requires Run(plan, sources, was, batch, live, outs)
    requires EvaluatesAll(plan, sources, live + [v]) && IsDelta(out, was[|live|], v)
    requires
      var kind, d := plan.nodes[|live|].kind, InputValues(plan, outs, |live|);
      if kind.Input? then out == SeedRows(batch, kind.source)
      else if Quiet(d) then out == [] else Writes(plan, live, d, |live|, out)
    ensures Run(plan, sources, was, batch, live + [v], outs + [out])
  {
    AllChangedSnoc(outs, was, live, out, v);
    forall id: nat | id <= |outs| ensures WritesAt(plan, batch, live + [v], outs + [out], id) {
      assert InputValues(plan, outs + [out], id) == InputValues(plan, outs, id);
      assert InputValues(plan, live + [v], id) == InputValues(plan, live, id);
      assert id < |outs| ==> WritesAt(plan, batch, live, outs, id);
    }
  }

  // --------------------------------------------------------------------- the checks

  /** Some set of fewer rows than the round budget holds the old least fixpoint and is
      closed under the rules over the new inputs. */
  ghost predicate FixpointFits(rules: seq<Rule>, a: seq<Bag>, b: seq<Bag>) {
    exists universe: set<Row> ::
      RoundsFit(Lfp(rules, SetsOf(a)), universe) && Closed(rules, SetsOf(b), iset x | x in universe)
  }

  ghost function FittingUniverse(rules: seq<Rule>, a: seq<Bag>, b: seq<Bag>, d: seq<Bag>, was: Tables.Table):
      (universe: set<Row>)
    requires WellFormed(rules, |a|) && AllDeltas(d, a, b) && AllPositive(a) && AllPositive(b)
    requires StateOk(Plans.Fixpoint(rules), map[], was, a)
    ensures FixpointFits(rules, a, b) ==>
              DrainFits(CanonAll(rules, Itself), SidesOf(b, d), Tables.Keys(was, Itself), universe)
  {
    if FixpointFits(rules, a, b) then
      var universe: set<Row> :|
        RoundsFit(Lfp(rules, SetsOf(a)), universe) && Closed(rules, SetsOf(b), iset x | x in universe);
      ClosedDrainFits(rules, a, b, d, was, universe);
      universe
    else {}
  }

  /** The checks at the next node, whose changed inputs wrote `d`. */
  ghost predicate NodeFits(plan: Plan, was: seq<Bag>, live: seq<Bag>, d: seq<Bag>)
    requires ValidPlan(plan) && |live| < |plan.nodes| == |was| && |d| == |plan.nodes[|live|].inputs|
    requires !plan.nodes[|live|].kind.Input?
  {
    var id := |live|;
    var kind, b := plan.nodes[id].kind, InputValues(plan, live, id);
    if kind.Set? && kind.op.Union? then
      !TooMany(Itself, b[0], RightOf(b), Touched(Itself, AllChanges(d[0], RightOf(d))))
    else if kind.Join? && kind.mode.Inner? then Integers(InnerDeltaRows(kind, d, b, TouchedBy(d)))
    else if Keyed(kind) then BeforeFits(plan, live, d, id) && AfterFits(plan, live, d, id)
    else if kind.Fixpoint? then FixpointFits(kind.rules, InputValues(plan, was, id), b)
    else true
  }

  /** No row is retracted more often than `s` has it. */
  ghost predicate Covers(s: Bag, out: Bag) {
    forall r :: Net(ApplyState.Retractions(out), r) <= Net(s, r)
  }

  /** The checks of applying the output's delta. */
  ghost predicate ResultFits(plan: Plan, was: Bag, out: Bag)
    requires ValidPlan(plan)
  {
    || out == [] || AppliesInPlace(plan)
    || ((Settles(plan, plan.output) || Covers(was, out)) && ApplyState.WithinPeak(out))
  }

  /** The staged rows of every source are within the seed budget. */
  predicate SeedsFit(plan: Plan, batch: seq<Staged>) {
    forall n | 0 <= n < |plan.nodes| && plan.nodes[n].kind.Input? ::
      |SeedRows(batch, plan.nodes[n].kind.source)| <= SEED_STATEMENT_BUDGET
  }

  /** The checks that a run meets once it has come this far. */
  ghost predicate FitsHere(plan: Plan, was: seq<Bag>, live: seq<Bag>, outs: seq<Bag>)
    requires ValidPlan(plan) && |live| == |outs| <= |plan.nodes| == |was|
  {
    && (|live| < |plan.nodes| && !plan.nodes[|live|].kind.Input? && !Quiet(InputValues(plan, outs, |live|)) ==>
          NodeFits(plan, was, live, InputValues(plan, outs, |live|)))
    && (|live| == plan.output + 1 ==> ResultFits(plan, was[plan.output], outs[plan.output]))
  }

  /** Every check of the batch holds, however far a run has come. */
  ghost predicate PassesChecks(plan: Plan, sources: seq<Bag>, was: seq<Bag>, batch: seq<Staged>)
    requires ValidPlan(plan) && |was| == |plan.nodes|
  {
    && SeedsFit(plan, batch)
    && forall live, outs | Run(plan, sources, was, batch, live, outs) :: FitsHere(plan, was, live, outs)
  }

  /** The checks of populating the next node from the values before it. */
  ghost predicate FillFits(plan: Plan, live: seq<Bag>)
    requires ValidPlan(plan) && |live| < |plan.nodes|
  {
    var id := |live|;
    var kind, b := plan.nodes[id].kind, InputValues(plan, live, id);
    && (Keyed(kind) ==> WithinBudgets(kind, b, InputWidth(plan, id, 0), InputWidth(plan, id, 1)))
    && (kind.Fixpoint? ==> exists universe: set<Row> :: RoundsFit(Lfp(kind.rules, SetsOf(b)), universe))
  }

  /** Every check of initial population holds, however far it has come. */
  ghost predicate PopulationPasses(plan: Plan, sources: seq<Bag>)
    requires ValidPlan(plan)
  {
    forall live: seq<Bag> | |live| <= |plan.nodes| && EvaluatesAll(plan, sources, live) ::
      && (|live| < |plan.nodes| ==> FillFits(plan, live))
      && (|live| == plan.output + 1 ==> ApplyState.WithinPeak(live[plan.output]))
  }

  // ------------------------------------------------------- plans that only copy rows

  /** Maps and UNION ALL over sources. */
  predicate OnlyCopies(plan: Plan) {
    forall id | 0 <= id < |plan.nodes| :: plan.nodes[id].kind.Input? || plan.nodes[id].kind.Map? || IsUnionAll(plan, id)
  }

  /** Arrivals only, none of them beyond the multiplicity budget. */
  predicate Arrives(s: Bag) {
    forall i | 0 <= i < |s| :: 0 < s[i].m <= ApplyState.BULK_MULTIPLICITY_BUDGET
  }

  lemma {:induction false} SeedsArrive(batch: seq<Staged>, source: nat)
    requires forall i | 0 <= i < |batch| :: 0 <= batch[i].m <= ApplyState.BULK_MULTIPLICITY_BUDGET
    ensures Arrives(SeedRows(batch, source))
  {
    if batch != [] {
      assert forall i | 0 <= i < |batch[1..]| :: batch[1..][i] == batch[i + 1];
      SeedsArrive(batch[1..], source);
    }
  }

  lemma {:induction false} MapArrives(project: Row -> Row, accepts: Row -> bool, s: Bag)
    requires Arrives(s)
    ensures Arrives(EvalMap(project, accepts, s))
  {
    if s != [] {
      MapArrives(project, accepts, s[1..]);
    }
  }

  lemma {:induction false} ConcatArrives(bags: seq<Bag>)
    requires forall i | 0 <= i < |bags| :: Arrives(bags[i])
    ensures Arrives(Concat(bags))
  {
    if bags != [] {
      ConcatArrives(bags[1..]);
    }
  }

  lemma {:induction false} CopiesArrive(plan: Plan, sources: seq<Bag>, was: seq<Bag>, batch: seq<Staged>,
                                        live: seq<Bag>, outs: seq<Bag>, id: nat)
    requires ValidPlan(plan) && |was| == |plan.nodes| && OnlyCopies(plan) && id < |outs|
    requires Run(plan, sources, was, batch, live, outs)
    requires forall i | 0 <= i < |batch| :: 0 <= batch[i].m <= ApplyState.BULK_MULTIPLICITY_BUDGET
    ensures Arrives(outs[id])
  {
    var kind, d := plan.nodes[id].kind, InputValues(plan, outs, id);
    assert WritesAt(plan, batch, live, outs, id);
    if kind.Input? {
      SeedsArrive(batch, kind.source);
    } else {
      forall i | 0 <= i < |d| ensures Arrives(d[i]) {
        CopiesArrive(plan, sources, was, batch, live, outs, plan.nodes[id].inputs[i]);
      }
      if kind.Map? {
        MapArrives(kind.project, kind.accepts, d[0]);
      } else {
        ConcatArrives(d);
      }
    }
  }

  lemma ArrivalsOnly(s: Bag, out: Bag)
    requires Positive(s) && Arrives(out)
    ensures Covers(s, out) && ApplyState.WithinPeak(out)
  {
    ApplyState.NothingRetracted(out);
    forall r ensures Net(ApplyState.Retractions(out), r) <= Net(s, r) {
      NetPositive(s, r);
    }
  }

  /** Over such a plan no batch of arrivals within the seed and multiplicity budgets is
      refused. */
  lemma CopiesPass(plan: Plan, before: seq<Bag>, sources: seq<Bag>, was: seq<Bag>, batch: seq<Staged>)
    requires ValidPlan(plan) && |was| == |plan.nodes| && OnlyCopies(plan) && EvaluatesAll(plan, before, was)
    requires SeedsFit(plan, batch)
    requires forall i | 0 <= i < |batch| :: 0 <= batch[i].m <= ApplyState.BULK_MULTIPLICITY_BUDGET
    ensures PassesChecks(plan, sources, was, batch)
  {
    forall live, outs | Run(plan, sources, was, batch, live, outs) ensures FitsHere(plan, was, live, outs) {
      if |live| == plan.output + 1 {
        CopiesArrive(plan, sources, was, batch, live, outs, plan.output);
        assert Evaluates(plan, before, was, plan.output);
        ArrivalsOnly(was[plan.output], outs[plan.output]);
      }
    }
  }
}

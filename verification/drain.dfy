/** Maintenance of one batch: the nodes of a plan in order, each reading its
    inputs' deltas from shared scratch tables and writing its own. */
module Drain {
  import opened Rows
  import opened Bags
  import opened Datalog
  import Tables
  import opened FixpointStatements
  import opened Fixpoint
  import opened Plans
  import opened Locality
  import opened Meaning
  import opened Slots
  import opened Scratch
  import opened Population
  import opened Materialize
  import opened SetMembership
  import opened NodeDeltas
  import opened Runs
  import ApplyState
  import opened GroupOutput
  import opened Wrappers
  import Aggregate

  ghost predicate Seeded(plan: Plan, layout: Layout, tables: seq<Bag>, batch: seq<Staged>, n: nat)
    requires LayoutOk(plan, layout) && n < |plan.nodes| && plan.nodes[n].kind.Input?
  {
    layout.slots[n] < |tables| && tables[layout.slots[n]] == SeedRows(batch, plan.nodes[n].kind.source)
  }

  /** Source nodes all hold their deltas from the start, in tables of their own. */
  lemma SourcesApart(plan: Plan, layout: Layout)
    requires LayoutOk(plan, layout)
    ensures forall n: nat, m: nat | n < m < |plan.nodes| && plan.nodes[n].kind.Input? && plan.nodes[m].kind.Input? ::
      layout.slots[n] != layout.slots[m]
  {
    forall n: nat, m: nat | n < m < |plan.nodes| && plan.nodes[n].kind.Input? && plan.nodes[m].kind.Input?
      ensures layout.slots[n] != layout.slots[m]
    {
      HeldApart(plan, layout, 0, n, m);
    }
  }

  /** The sources before `id` are seeded, and nothing else is written. */
  ghost predicate SeededTo(plan: Plan, layout: Layout, tables: seq<Bag>, rows: seq<nat>, batch: seq<Staged>, id: nat)
    requires LayoutOk(plan, layout)
  {
    && |tables| == |rows| == |plan.nodes|
    && (forall n: nat | n < id && n < |rows| && plan.nodes[n].kind.Input? ::
         Seeded(plan, layout, tables, batch, n) && rows[n] == |SeedRows(batch, plan.nodes[n].kind.source)|)
    && (forall n: nat | n < |rows| && (n >= id || !plan.nodes[n].kind.Input?) :: rows[n] == 0)
    && (forall s: nat | s < |tables| && Unseeded(plan, layout, id, s) :: tables[s] == [])
  }

  ghost predicate Unseeded(plan: Plan, layout: Layout, id: nat, s: nat)
    requires LayoutOk(plan, layout)
  {
    forall n: nat | n < id && n < |plan.nodes| && plan.nodes[n].kind.Input? :: layout.slots[n] != s
  }

  lemma SeedStart(plan: Plan, layout: Layout, tables: seq<Bag>, batch: seq<Staged>)
    requires LayoutOk(plan, layout) && |tables| == |plan.nodes| && forall s | 0 <= s < |tables| :: tables[s] == []
    ensures SeededTo(plan, layout, tables, seq(|plan.nodes|, _ => 0), batch, 0)
  {
  }

  /** The next source finds its table empty, and its rows reach no other source's. */
  /** The next source's table is still empty, and it is no table of a source before. */
  lemma SeedEmpty(plan: Plan, layout: Layout, tables: seq<Bag>, rows: seq<nat>, batch: seq<Staged>, id: nat)
    requires LayoutOk(plan, layout) && id < |plan.nodes| && plan.nodes[id].kind.Input?
    requires SeededTo(plan, layout, tables, rows, batch, id)
    ensures layout.slots[id] < |tables| && tables[layout.slots[id]] == []
    ensures forall n: nat | n < id && plan.nodes[n].kind.Input? :: layout.slots[n] != layout.slots[id]
  {
    SourcesApart(plan, layout);
    SlotInRange(plan, layout, id);
    assert Unseeded(plan, layout, id, layout.slots[id]);
  }

  lemma SeedNext(plan: Plan, layout: Layout, tables: seq<Bag>, rows: seq<nat>, batch: seq<Staged>, id: nat)
    requires LayoutOk(plan, layout) && id < |plan.nodes| && plan.nodes[id].kind.Input?
    requires SeededTo(plan, layout, tables, rows, batch, id)
    ensures layout.slots[id] < |tables| && tables[layout.slots[id]] == []
    ensures
      var more := SeedRows(batch, plan.nodes[id].kind.source);
      SeededTo(plan, layout, tables[layout.slots[id] := tables[layout.slots[id]] + more], rows[id := |more|], batch,
               id + 1)
  {
    SeedEmpty(plan, layout, tables, rows, batch, id);
    var more := SeedRows(batch, plan.nodes[id].kind.source);
    var after := tables[layout.slots[id] := [] + more];
    forall n: nat | n < id + 1 && plan.nodes[n].kind.Input? ensures Seeded(plan, layout, after, batch, n) {
      if n < id {
        assert Seeded(plan, layout, tables, batch, n);
      }
    }
    forall s: nat | s < |tables| && Unseeded(plan, layout, id + 1, s) ensures after[s] == [] {
      assert Unseeded(plan, layout, id, s);
    }
  }

  lemma SeedSkips(plan: Plan, layout: Layout, tables: seq<Bag>, rows: seq<nat>, batch: seq<Staged>, id: nat)
    requires LayoutOk(plan, layout) && id < |plan.nodes| && !plan.nodes[id].kind.Input?
    requires SeededTo(plan, layout, tables, rows, batch, id)
    ensures SeededTo(plan, layout, tables, rows, batch, id + 1)
  {
    forall s: nat | s < |tables| && Unseeded(plan, layout, id + 1, s) ensures tables[s] == [] {
      assert Unseeded(plan, layout, id, s);
    }
  }

  lemma SeedEnd(plan: Plan, layout: Layout, tables: seq<Bag>, rows: seq<nat>, batch: seq<Staged>)
    requires LayoutOk(plan, layout) && SeededTo(plan, layout, tables, rows, batch, |plan.nodes|)
    ensures ScratchOk(plan, layout, tables, rows, 0)
    ensures forall n: nat | n < |plan.nodes| && plan.nodes[n].kind.Input? :: Seeded(plan, layout, tables, batch, n)
  {
    forall s: nat | s < |tables| && Free(plan, layout, 0, s) ensures tables[s] == [] {
      forall n: nat | n < |plan.nodes| && plan.nodes[n].kind.Input? ensures layout.slots[n] != s {
        assert IsLastRead(plan, n, layout.lastReads[n]);
        assert Held(plan, layout, 0, n);
      }
      assert Unseeded(plan, layout, |plan.nodes|, s);
    }
  }

  class Engine {
    const plan: Plan
    /** The order of rows by storage class and bits. */
    const exact: (Row, Row) -> bool
    const layout: Layout
    const result: ApplyState.ResultTable

    var sources: seq<Bag>
    var tables: seq<Bag>
    var supports: seq<State>
    var members: seq<Tables.Table>
    /** Of an output group on the COUNT/SUM path: its groups' safety and support. */
    var metadata: map<Row, Aggregate.Meta>

    /** The value of every node over the current sources. */
    ghost var values: seq<Bag>

    /** Empty tables, before initial population. */
    constructor (plan: Plan, exact: (Row, Row) -> bool)
      requires ValidPlan(plan) && OutputOk(plan)
      ensures Shape() && this.plan == plan && result.Valid() && result.Contents() == []
      ensures fresh(result) && metadata == map[]
      ensures forall n | 0 <= n < |plan.nodes| ::
                tables[n] == [] && supports[n] == map[] && members[n] == Tables.Table([], 0)
    {
      var group := if plan.shown.Some? then plan.shown.value else Itself;
      var slots, lastReads := AssignOutSlots(plan);
      this.plan, this.exact, this.layout := plan, exact, Layout(slots, lastReads);
      result := new ApplyState.ResultTable(AppliesInPlace(plan), group);
      sources := [];
      tables := seq(|plan.nodes|, _ => []);
      supports := seq(|plan.nodes|, _ => map[]);
      members := seq(|plan.nodes|, _ => Tables.Table([], 0));
      metadata := map[];
      values := seq(|plan.nodes|, _ => []);
    }

    ghost predicate Shape()
      reads this
    {
      && LayoutOk(plan, layout) && WrittenAs(plan, result.inPlace, result.group)
      && |tables| == |supports| == |members| == |values| == |plan.nodes|
    }

    ghost predicate NodeOk(vs: seq<Bag>, id: nat)
      reads this
      requires Shape() && id < |plan.nodes| && id <= |vs|
    {
      StateOk(plan.nodes[id].kind, supports[id], members[id], InputValues(plan, vs, id))
    }

    ghost predicate ResultIs(v: Bag)
      reads result
    {
      result.Valid() && Same(result.Contents(), v)
    }

    /** Between batches: every node's state is that of the current sources, the
        stored result is the output's value, and no scratch row is left. */
    ghost predicate Valid()
      reads this, result
    {
      && Shape()
      && EvaluatesAll(plan, sources, values)
      && (forall id: nat | id < |plan.nodes| :: NodeOk(values, id))
      && ResultIs(values[plan.output]) && MetaOk(plan, metadata, values)
      && (forall s | 0 <= s < |tables| :: tables[s] == [])
    }

    /** Between batches the stored result is the query evaluated from scratch. */
    lemma StoredIsQuery(vs: seq<Bag>)
      requires Valid() && |vs| == |plan.nodes| && EvaluatesAll(plan, sources, vs)
      ensures Same(result.Contents(), vs[plan.output])
    {
      EvaluationUnique(plan, sources, values, vs, plan.output);
    }

    /** What a node's statements may rely on. */
    ghost predicate Ready(was: seq<Bag>, before: seq<Bag>, live: seq<Bag>, d: seq<Bag>, touched: seq<bool>, id: nat)
      reads this, result
    {
      && Shape() && id < |plan.nodes| == |was| && |live| == id && !plan.nodes[id].kind.Input?
      && EvaluatesAll(plan, before, was) && EvaluatesAll(plan, sources, live)
      && AllDeltas(d, InputValues(plan, was, id), InputValues(plan, live, id))
      && |touched| == |d| && (forall i | 0 <= i < |d| :: !touched[i] <==> d[i] == [])
      && (exists i :: 0 <= i < |d| && d[i] != [])
      && NodeOk(was, id)
      && (id == plan.output ==> ResultIs(was[id]) && MetaOk(plan, metadata, was))
      && SafeNode(plan.nodes[id].kind, InputValues(plan, was, id), InputValues(plan, live, id))
    }

    /** The statements of one UNION or DISTINCT node. */
    method DrainUnion(live: seq<Bag>, d: seq<Bag>, touched: seq<bool>, id: nat, ghost was: seq<Bag>,
                      ghost before: seq<Bag>) returns (ok: bool, out: Bag)
      requires Ready(was, before, live, d, touched, id) && plan.nodes[id].kind.Set? && plan.nodes[id].kind.op.Union?
      modifies this`supports
      ensures Shape() && (forall n | 0 <= n < |supports| && n != id :: supports[n] == old(supports[n]))
      ensures
        var b := InputValues(plan, live, id);
        ok <==> !TooMany(Itself, b[0], RightOf(b), Touched(Itself, AllChanges(d[0], RightOf(d))))
      ensures ok ==> IsChange(plan, sources, was, live, id, out) && NodeOk(live, id) && Consolidated(out)
    {
      ghost var a := InputValues(plan, was, id);
      var b := InputValues(plan, live, id);
      InputsPositive(plan, before, was, id);
      InputsPositive(plan, sources, live, id);
      var node := new SupportTable(Order(Itself, exact));
      node.state := supports[id];
      ok, out := node.Drain(d[0], RightOf(d), b[0], RightOf(b), a[0], RightOf(a));
      if !ok { return; }
      assert Evaluates(plan, before, was, id);
      forall x ensures Net(out, x) == Net(EvalSet(Union, b), x) - Net(EvalSet(Union, a), x) {
        ShownIsUnion(supports[id], a, x);
        ShownIsUnion(node.state, b, x);
      }
      supports := supports[id := node.state];
      ComputedChange(plan, before, sources, was, live, id, out);
    }

    /** Signed maps and UNION ALL copies need no old rows. */
    method DrainCopies(live: seq<Bag>, d: seq<Bag>, touched: seq<bool>, id: nat, ghost was: seq<Bag>,
                       ghost before: seq<Bag>) returns (out: Bag)
      requires Ready(was, before, live, d, touched, id)
      requires plan.nodes[id].kind.Map? || (plan.nodes[id].kind.Set? && plan.nodes[id].kind.op.All?)
      ensures IsChange(plan, sources, was, live, id, out) && NodeOk(live, id) && Writes(plan, live, d, id, out)
    {
      ghost var a, b := InputValues(plan, was, id), InputValues(plan, live, id);
      assert Evaluates(plan, before, was, id);
      match plan.nodes[id].kind {
        case Map(project, accepts, _) =>
          out := EvalMap(project, accepts, d[0]);
          MapDelta(project, accepts, d[0], a[0], b[0]);
        case Set(op) =>
          out := [];
          for i := 0 to |d|
            invariant out + Concat(d[i..]) == Concat(d)
          {
            out := out + d[i];
          }
          assert out == Concat(d) by { assert d[|d|..] == []; }
          ConcatDelta(d, a, b);
      }
      ComputedChange(plan, before, sources, was, live, id, out);
    }

    /** One insert per changed side, and the cross term when both changed. */
    method JoinStatements(kind: Kind, d: seq<Bag>, now: seq<Bag>, touched: seq<bool>) returns (out: Bag)
      requires kind.Join? && |d| == |now| == |touched| == 2
      ensures out == InnerDeltaRows(kind, d, now, touched)
    {
      out := [];
      if touched[0] {
        out := out + EvalInner(kind, d[0], now[1]);
      }
      if touched[1] {
        out := out + EvalInner(kind, now[0], d[1]);
      }
      if touched[0] && touched[1] {
        out := out + Negated(EvalInner(kind, d[0], d[1]));
      }
    }

    /** An inner join writes its three-term delta. */
    method DrainInner(live: seq<Bag>, d: seq<Bag>, touched: seq<bool>, id: nat, ghost was: seq<Bag>,
                      ghost before: seq<Bag>)
      returns (ok: bool, out: Bag)
      requires Ready(was, before, live, d, touched, id)
      requires plan.nodes[id].kind.Join? && plan.nodes[id].kind.mode.Inner?
      ensures ok <==> Integers(InnerDeltaRows(plan.nodes[id].kind, d, InputValues(plan, live, id), touched))
      ensures ok ==> IsChange(plan, sources, was, live, id, out) && NodeOk(live, id)
      ensures ok && id == plan.output ==> Consolidated(out)
      ensures ok ==> Writes(plan, live, d, id, out)
    {
      var kind := plan.nodes[id].kind;
      ghost var a := InputValues(plan, was, id);
      var b := InputValues(plan, live, id);
      assert Evaluates(plan, before, was, id);
      out := JoinStatements(kind, d, b, touched);
      assert touched == TouchedBy(d);
      ok := Integers(out);
      if !ok { return; }
      InnerDeltaExact(kind, d, a, b, touched);
      if !GroupConsumersConsolidate(plan, id) {
        ConsolidateDelta(out, EvalInner(kind, a[0], a[1]), EvalInner(kind, b[0], b[1]));
        ConsolidateIs(out);
        out := Consolidate(out);
      }
      ComputedChange(plan, before, sources, was, live, id, out);
    }

    /** The before image of an output group that shows its keys is stored. */
    predicate ReadsStored(id: nat) {
      id == plan.output && plan.shown.Some?
    }

    /** The touched keys as they were: read off the stored result unless the row check
        finds it corrupt, and otherwise computed from the inputs and their deltas. */
    method BeforeImage(live: seq<Bag>, d: seq<Bag>, keys: set<Row>, id: nat, corrupt: bool, ghost touched: seq<bool>,
                       ghost was: seq<Bag>, ghost before: seq<Bag>) returns (ok: bool, image: Bag)
      requires Ready(was, before, live, d, touched, id) && Keyed(plan.nodes[id].kind)
      requires keys == TouchedKeys(plan.nodes[id].kind, d)
      ensures ok <==> (ReadsStored(id) && !corrupt) || BeforeFits(plan, live, d, id)
      ensures ok ==> Positive(image) && IsImage(plan, id, InputValues(plan, was, id), keys, image)
    {
      var kind, lw, rw := plan.nodes[id].kind, InputWidth(plan, id, 0), InputWidth(plan, id, 1);
      ghost var a := InputValues(plan, was, id);
      var b := InputValues(plan, live, id);
      InputsPositive(plan, before, was, id);
      if ReadsStored(id) && !corrupt {
        assert Evaluates(plan, before, was, id);
        TouchedKeyless(kind, d);
        ok, image := true, Restrict(result.Contents(), x => plan.shown.value(x) in keys);
        RestrictRows(result.Contents(), x => plan.shown.value(x) in keys);
        StoredTouched(kind, plan.shown.value, result.Contents(), a[0], keys);
      } else {
        BeforeImageExact(kind, d, a, b, lw, rw, keys);
        ok, image := Execute(kind, AllBefore(kind, b, d, keys), lw, rw);
        if ok {
          EvalPositive(kind, AllBefore(kind, b, d, keys), lw, rw);
        }
      }
    }

    /** The touched groups as they are, from the stored ones: COUNT and SUM add the
        delta's contributions while that is safe, and recompute otherwise. */
    method SumsImage(live: seq<Bag>, d: seq<Bag>, parked: Bag, id: nat, ghost touched: seq<bool>,
                     ghost was: seq<Bag>, ghost before: seq<Bag>) returns (image: Bag)
      requires Ready(was, before, live, d, touched, id) && id == plan.output && plan.sums.Some? && Positive(parked)
      requires IsImage(plan, id, InputValues(plan, was, id), TouchedKeys(plan.nodes[id].kind, d), parked)
      modifies this`metadata
      ensures Shape() && MetaOk(plan, metadata, live)
      ensures IsImage(plan, id, InputValues(plan, live, id), TouchedKeys(plan.nodes[id].kind, d), image)
    {
      var kind, group, sums := plan.nodes[id].kind, plan.shown.value, plan.sums.value;
      SumsReady(plan, sources, before, was, live, d, parked);
      var node := new Aggregate.Aggregates(sums.query, metadata, ReadGroups(parked, group, sums.read));
      var fast := node.Drain(d[0], InputValues(plan, live, id)[0], InputValues(plan, was, id)[0]);
      SumsImaged(plan, live, d, node.stored);
      metadata := node.metadata;
      image := Weigh(ShowGroups(sums, node.stored, KeysIn(kind, d[0])), 1);
    }

    /** The touched keys as they are. */
    method AfterImage(live: seq<Bag>, d: seq<Bag>, parked: Bag, id: nat, ghost touched: seq<bool>,
                      ghost was: seq<Bag>, ghost before: seq<Bag>) returns (ok: bool, image: Bag)
      requires Ready(was, before, live, d, touched, id) && Keyed(plan.nodes[id].kind) && Positive(parked)
      requires IsImage(plan, id, InputValues(plan, was, id), TouchedKeys(plan.nodes[id].kind, d), parked)
      modifies this`metadata
      ensures Shape() && (id != plan.output ==> metadata == old(metadata))
      ensures id == plan.output ==> MetaOk(plan, metadata, live)
      ensures ok <==> AfterFits(plan, live, d, id)
      ensures ok ==> IsImage(plan, id, InputValues(plan, live, id), TouchedKeys(plan.nodes[id].kind, d), image)
    {
      var kind := plan.nodes[id].kind;
      if id == plan.output && plan.sums.Some? {
        ok := true;
        image := SumsImage(live, d, parked, id, touched, was, before);
      } else {
        var now := AllRestricted(kind, InputValues(plan, live, id), TouchedKeys(kind, d));
        ok, image := Execute(kind, now, InputWidth(plan, id, 0), InputWidth(plan, id, 1));
      }
    }

    /** Other joins, EXCEPT, INTERSECT and groups: the touched keys as they are now,
        minus the touched keys as they were. */
    method DrainKeyed(live: seq<Bag>, d: seq<Bag>, touched: seq<bool>, id: nat, corrupt: bool, ghost was: seq<Bag>,
                      ghost before: seq<Bag>) returns (ok: bool, out: Bag)
      requires Ready(was, before, live, d, touched, id)
      requires Keyed(plan.nodes[id].kind) && !(plan.nodes[id].kind.Join? && plan.nodes[id].kind.mode.Inner?)
      modifies this`metadata
      ensures Shape() && (id != plan.output ==> metadata == old(metadata))
      ensures ok <==> ((ReadsStored(id) && !corrupt) || BeforeFits(plan, live, d, id)) && AfterFits(plan, live, d, id)
      ensures ok ==> IsChange(plan, sources, was, live, id, out) && NodeOk(live, id) && Consolidated(out)
      ensures ok && id == plan.output ==> MetaOk(plan, metadata, live)
    {
      var kind, lw, rw := plan.nodes[id].kind, InputWidth(plan, id, 0), InputWidth(plan, id, 1);
      ghost var a, b := InputValues(plan, was, id), InputValues(plan, live, id);
      assert Evaluates(plan, before, was, id);
      InputsPositive(plan, before, was, id);
      InputsPositive(plan, sources, live, id);
      var parked, image;
      out := [];
      ok, parked := BeforeImage(live, d, TouchedKeys(kind, d), id, corrupt, touched, was, before);
      if !ok { return; }
      ok, image := AfterImage(live, d, parked, id, touched, was, before);
      if !ok { return; }
      out := Consolidate(image + Negated(parked));
      ConsolidateIs(image + Negated(parked));
      KeyedDeltaExact(kind, d, a, b, lw, rw, parked, image);
      ComputedChange(plan, before, sources, was, live, id, out);
    }

    /** A recursive node deletes and rederives side by side. */
    method DrainFixpoint(live: seq<Bag>, d: seq<Bag>, touched: seq<bool>, id: nat, ghost was: seq<Bag>,
                         ghost before: seq<Bag>) returns (ok: bool, out: Bag)
      requires Ready(was, before, live, d, touched, id) && plan.nodes[id].kind.Fixpoint?
      modifies this`members
      ensures Shape() && (forall n | 0 <= n < |members| && n != id :: members[n] == old(members[n]))
      ensures ok ==> IsChange(plan, sources, was, live, id, out) && NodeOk(live, id) && Units(out)
      ensures FixpointFits(plan.nodes[id].kind.rules, InputValues(plan, was, id), InputValues(plan, live, id)) ==> ok
    {
      var rules := plan.nodes[id].kind.rules;
      ghost var a := InputValues(plan, was, id);
      var b := InputValues(plan, live, id);
      assert Evaluates(plan, before, was, id);
      InputsPositive(plan, before, was, id);
      InputsPositive(plan, sources, live, id);
      SidesOfOk(a, b, d);
      ItselfRespected(rules, |d|);
      var node := new FixpointNode(rules, |d|, Itself);
      node.all := members[id];
      ghost var universe := FittingUniverse(rules, a, b, d, members[id]);
      var written;
      ok, written := node.Drain(SidesOf(b, d), touched, universe);
      out := node.out;
      if ok {
        DrainedMembers(rules, a, b, d, members[id], node.all);
        MembersChange(plan, before, sources, was, live, id, members[id], node.all, out);
        members := members[id := node.all];
      }
    }

    /** The statements of node `id`. */
    method RunStatements(live: seq<Bag>, d: seq<Bag>, touched: seq<bool>, id: nat, ghost was: seq<Bag>,
                         ghost before: seq<Bag>) returns (ok: bool, out: Bag)
      requires Ready(was, before, live, d, touched, id)
      modifies this`supports, this`members, this`metadata
      ensures Shape() && (id != plan.output ==> metadata == old(metadata))
      ensures forall n | 0 <= n < |plan.nodes| && n != id ::
                supports[n] == old(supports[n]) && members[n] == old(members[n])
      ensures ok ==> IsChange(plan, sources, was, live, id, out) && NodeOk(live, id) && Writes(plan, live, d, id, out)
      ensures ok && id == plan.output ==> MetaOk(plan, metadata, live)
      ensures ok && Settles(plan, id) ==> Consolidated(out)
      ensures NodeFits(plan, was, live, d) ==> ok
    {
      var kind := plan.nodes[id].kind;
      ok := true;
      if kind.Map? || (kind.Set? && kind.op.All?) {
        out := DrainCopies(live, d, touched, id, was, before);
      } else if kind.Set? && kind.op.Union? {
        ok, out := DrainUnion(live, d, touched, id, was, before);
      } else if kind.Fixpoint? {
        ok, out := DrainFixpoint(live, d, touched, id, was, before);
      } else if kind.Join? && kind.mode.Inner? {
        assert touched == TouchedBy(d);
        ok, out := DrainInner(live, d, touched, id, was, before);
      } else {
        var corrupt: bool := *;
        ok, out := DrainKeyed(live, d, touched, id, corrupt, was, before);
      }
    }

    /** The statements of node `id`, written into its table. */
    method DrainNode(live: seq<Bag>, d: seq<Bag>, touched: seq<bool>, id: nat, ghost was: seq<Bag>,
                     ghost before: seq<Bag>) returns (ok: bool, written: nat)
      requires Ready(was, before, live, d, touched, id)
      modifies this`tables, this`supports, this`members, this`metadata
      ensures Shape() && (id != plan.output ==> metadata == old(metadata))
      ensures forall n | 0 <= n < |plan.nodes| && n != id ::
                supports[n] == old(supports[n]) && members[n] == old(members[n])
      ensures layout.slots[id] < |tables| && tables == old(tables)[layout.slots[id] := tables[layout.slots[id]]]
      ensures written == |tables[layout.slots[id]]|
      ensures ok ==> IsChange(plan, sources, was, live, id, tables[layout.slots[id]]) && NodeOk(live, id)
      ensures ok && id == plan.output ==> MetaOk(plan, metadata, live)
      ensures ok && Settles(plan, id) ==> Consolidated(tables[layout.slots[id]])
      ensures ok ==> Writes(plan, live, d, id, tables[layout.slots[id]])
      ensures NodeFits(plan, was, live, d) ==> ok
    {
      var out;
      ok, out := RunStatements(live, d, touched, id, was, before);
      SlotInRange(plan, layout, id);
      tables := tables[layout.slots[id] := out];
      written := |out|;
    }

    /** The rows a later node reads from node `id`: computed from the sources, or
        read from the node's support or member table. */
    method Live(live: seq<Bag>, id: nat) returns (rows: Bag)
      requires Shape() && id < |plan.nodes| && |live| == id && EvaluatesAll(plan, sources, live) && NodeOk(live, id)
      requires plan.nodes[id].kind.Input? ==>
                 plan.nodes[id].kind.source < |sources| && Positive(sources[plan.nodes[id].kind.source])
      ensures EvaluatesAll(plan, sources, live + [rows])
    {
      var b := InputValues(plan, live, id);
      InputsPositive(plan, sources, live, id);
      var kind := plan.nodes[id].kind;
      if kind.Input? {
        rows := sources[kind.source];
      } else if kind.Fixpoint? {
        rows := Weigh(Tables.EntryRows(members[id].entries), 1);
        MemberRows(members[id]);
      } else if kind.Set? && kind.op.Union? {
        var node := new SupportTable(Order(Itself, exact));
        node.state := supports[id];
        FaithfulKeyed(Itself, supports[id], b[0], RightOf(b));
        rows := node.Read();
        forall x ensures Net(rows, x) == Net(EvalSet(Union, b), x) {
          ShownIsUnion(supports[id], b, x);
        }
      } else {
        rows := EvalNode(kind, b, InputWidth(plan, id, 0), InputWidth(plan, id, 1));
        EvalPositive(kind, b, InputWidth(plan, id, 0), InputWidth(plan, id, 1));
      }
      SameInputs(plan, live, rows, id);
      NextEvaluates(plan, sources, live, rows);
    }

    /** Insert the staged rows of every source node. */
    method Seed(batch: seq<Staged>) returns (ok: bool, rows: seq<nat>)
      requires Shape() && forall s | 0 <= s < |tables| :: tables[s] == []
      modifies this`tables
      ensures Shape()
      ensures ok ==> ScratchOk(plan, layout, tables, rows, 0)
      ensures ok ==> forall n: nat | n < |plan.nodes| && plan.nodes[n].kind.Input? ::
                Seeded(plan, layout, tables, batch, n)
      ensures ok <==> SeedsFit(plan, batch)
    {
      rows := seq(|plan.nodes|, _ => 0);
      SeedStart(plan, layout, tables, batch);
      for id := 0 to |plan.nodes|
        invariant |tables| == |plan.nodes| && SeededTo(plan, layout, tables, rows, batch, id)
        invariant forall n | 0 <= n < id && plan.nodes[n].kind.Input? ::
                    |SeedRows(batch, plan.nodes[n].kind.source)| <= SEED_STATEMENT_BUDGET
      {
        if plan.nodes[id].kind.Input? {
          SeedNext(plan, layout, tables, rows, batch, id);
          var more: Bag;
          ok, more := SeedNode(batch, plan.nodes[id].kind.source);
          if !ok { return; }
          tables := tables[layout.slots[id] := tables[layout.slots[id]] + more];
          rows := rows[id := |more|];
        } else {
          SeedSkips(plan, layout, tables, rows, batch, id);
        }
      }
      ok := true;
      SeedEnd(plan, layout, tables, rows, batch);
    }

    method SeedNode(batch: seq<Staged>, source: nat) returns (ok: bool, more: Bag)
      ensures ok ==> more == SeedRows(batch, source)
      ensures ok <==> |SeedRows(batch, source)| <= SEED_STATEMENT_BUDGET
    {
      more := [];
      var bound := 0;
      assert batch[..0] == [];
      for i := 0 to |batch|
        invariant more == SeedRows(batch[..i], source) && bound == |more| <= SEED_STATEMENT_BUDGET
      {
        SeedRowsSnoc(batch[..i], batch[i], source);
        assert batch[..i + 1] == batch[..i] + [batch[i]];
        SeedRowsPrefix(batch, i + 1, source);
        if batch[i].source != source || batch[i].m == 0 {
          continue;
        }
        if bound >= SEED_STATEMENT_BUDGET {
          return false, more;
        }
        bound := bound + 1;
        more := more + [Weighted(batch[i].row, batch[i].m)];
      }
      assert batch[..|batch|] == batch;
      return true, more;
    }

    /** Clear the tables that node `id` read last, and its own when nobody reads it. */
    method Sweep(rows: seq<nat>, id: nat)
      requires Shape() && id < |plan.nodes| == |rows| && !plan.nodes[id].kind.Input?
      modifies this`tables
      ensures Shape() && SweptAfter(plan, layout, old(tables), tables, rows, id)
    {
      var inputs := plan.nodes[id].inputs;
      for side := 0 to |inputs|
        invariant Shape() && Sweeping(plan, layout, old(tables), tables, rows, id, side)
      {
        var child := inputs[side];
        SweepChild(plan, layout, old(tables), tables, rows, id, side);
        if layout.lastReads[child] == id && rows[child] != 0 && child !in inputs[..side] {
          tables := tables[layout.slots[child] := []];
        }
      }
      SweepOwn(plan, layout, old(tables), tables, rows, id);
      if layout.lastReads[id] == id && rows[id] != 0 {
        tables := tables[layout.slots[id] := []];
      }
    }

    /** Tables read after the last node are cleared at the end. */
    method FinalSweep(rows: seq<nat>)
      requires Shape() && ScratchOk(plan, layout, tables, rows, |plan.nodes|)
      modifies this`tables
      ensures Shape() && forall s | 0 <= s < |tables| :: tables[s] == []
    {
      for id := 0 to |plan.nodes|
        invariant |tables| == |plan.nodes|
        invariant forall s: nat | s < |tables| && old(tables)[s] == [] :: tables[s] == []
        invariant forall n: nat | n < id && Held(plan, layout, |plan.nodes|, n) :: tables[layout.slots[n]] == []
      {
        if rows[id] != 0 && layout.lastReads[id] == |plan.nodes| {
          SlotInRange(plan, layout, id);
          tables := tables[layout.slots[id] := []];
        } else {
          assert IsLastRead(plan, id, layout.lastReads[id]);
        }
      }
      forall s: nat | s < |tables| ensures tables[s] == [] {
        if !Free(plan, layout, |plan.nodes|, s) {
          var n: nat :| Held(plan, layout, |plan.nodes|, n) && layout.slots[n] == s;
        }
      }
    }

    /** Bring the stored result up to date when the output's node wrote a delta. */
    method ApplyOutput(out: Bag, written: nat, id: nat, ghost was: seq<Bag>, ghost before: seq<Bag>,
                       ghost now: seq<Bag>) returns (ok: bool)
      requires Shape() && |was| == |plan.nodes| && id < |now| == id + 1 <= |plan.nodes| && written == |out|
      requires EvaluatesAll(plan, before, was) && EvaluatesAll(plan, sources, now) && IsDelta(out, was[id], now[id])
      requires ResultIs(AtOutput(plan, was, now[..id])[plan.output]) && (Settles(plan, id) ==> Consolidated(out))
      modifies result
      ensures Shape() && (ok ==> ResultIs(AtOutput(plan, was, now)[plan.output]))
      ensures ok <==> id != plan.output || written == 0 || result.inPlace || FitsCopies(old(result.rows).entries, out)
      ensures Settles(plan, id) ==> (ok <==> written == 0 || result.inPlace || ApplyState.WithinPeak(out))
    {
      ok := true;
      if id == plan.output && written != 0 {
        if Settles(plan, id) {
          assert Evaluates(plan, sources, now, id);
          ConsolidatedCovers(result.rows.entries, was[id], now[id], out);
        }
        if result.inPlace {
          OutputInPlace(plan, before, sources, was, now, result.rows, out);
          ok := result.ApplyInPlace(out);
        } else {
          ok := result.ApplyCopies(out);
        }
      }
    }

    ghost function Now(): Snapshot
      reads this, result
    {
      Snapshot(sources, tables, supports, members, metadata, result.Contents())
    }

    /** What holds when the loop over the nodes has passed those in `live`. */
    ghost predicate Passed(batch: seq<Staged>, was: seq<Bag>, before: seq<Bag>, live: seq<Bag>, outs: seq<Bag>,
                           rows: seq<nat>)
      reads this, result
    {
      Shape() && result.Valid() && PassedBy(plan, layout, Now(), batch, was, before, live, outs, rows)
    }

    /** A source node only holds its staged rows. */
    method PassSource(batch: seq<Staged>, live: seq<Bag>, rows: seq<nat>, ghost outs: seq<Bag>, ghost was: seq<Bag>,
                      ghost before: seq<Bag>) returns (v: Bag)
      requires Passed(batch, was, before, live, outs, rows) && Leads(plan, sources, batch, was, before)
      requires |live| < |plan.nodes| && plan.nodes[|live|].kind.Input?
      ensures Passed(batch, was, before, live + [v], outs + [SeedRows(batch, plan.nodes[|live|].kind.source)], rows)
    {
      SourceReady(plan, layout, Now(), batch, was, before, live, outs, rows);
      v := Live(live, |live|);
      SourceStep(plan, layout, Now(), batch, was, before, live, outs, rows, v);
    }

    /** A node none of whose inputs changed is skipped. */
    method PassSkipped(batch: seq<Staged>, live: seq<Bag>, rows: seq<nat>, ghost outs: seq<Bag>, ghost was: seq<Bag>,
                       ghost before: seq<Bag>) returns (v: Bag)
      requires Passed(batch, was, before, live, outs, rows) && Leads(plan, sources, batch, was, before)
      requires |live| < |plan.nodes| && !plan.nodes[|live|].kind.Input? && Untouched(plan, rows, |live|)
      ensures Passed(batch, was, before, live + [v], outs + [[]], rows)
    {
      SkippedReady(plan, layout, Now(), batch, was, before, live, outs, rows);
      v := Live(live, |live|);
      SkippedStep(plan, layout, Now(), batch, was, before, live, outs, rows, v);
    }

    /** Which inputs changed, and by what. */
    method Touch(batch: seq<Staged>, live: seq<Bag>, rows: seq<nat>, ghost outs: seq<Bag>, ghost was: seq<Bag>,
                 ghost before: seq<Bag>) returns (d: seq<Bag>, touched: seq<bool>)
      requires Passed(batch, was, before, live, outs, rows) && Leads(plan, sources, batch, was, before)
      requires |live| < |plan.nodes| == |rows| && !plan.nodes[|live|].kind.Input? && !Untouched(plan, rows, |live|)
      ensures Ready(was, before, live, d, touched, |live|) && d == InputValues(plan, outs, |live|)
    {
      var id := |live|;
      var inputs := plan.nodes[id].inputs;
      d := InputTables(plan, layout, tables, id);
      touched := seq(|inputs|, i requires 0 <= i < |inputs| => rows[inputs[i]] != 0);
      TouchedReady(plan, layout, Now(), batch, was, before, live, outs, rows, d, touched);
    }

    /** A node with a changed input runs its statements. */
    method RunTouched(batch: seq<Staged>, live: seq<Bag>, rows: seq<nat>, ghost outs: seq<Bag>, ghost was: seq<Bag>,
                      ghost before: seq<Bag>) returns (ok: bool, v: Bag, written: nat)
      requires Passed(batch, was, before, live, outs, rows) && Leads(plan, sources, batch, was, before)
      requires |live| < |plan.nodes| == |rows| && !plan.nodes[|live|].kind.Input? && !Untouched(plan, rows, |live|)
      modifies this`tables, this`supports, this`members, this`metadata
      ensures Shape()
      ensures ok ==> Wrote(plan, layout, old(Now()), Now(), was, live, outs, written, v)
      ensures ok && Settles(plan, |live|) ==> Consolidated(tables[layout.slots[|live|]])
      ensures NodeFits(plan, was, live, InputValues(plan, outs, |live|)) ==> ok
    {
      var d, touched := Touch(batch, live, rows, outs, was, before);
      ok, written := DrainNode(live, d, touched, |live|, was, before);
      v := [];
      if ok {
        v := Live(live, |live|);
        WroteNode(plan, layout, old(Now()), Now(), batch, was, before, live, outs, rows, written, v);
      }
    }

    /** Then the output is applied, and what nobody reads any more is swept. */
    method CloseTouched(id: nat, written: nat, rows: seq<nat>, ghost start: Snapshot, ghost batch: seq<Staged>,
                        ghost live: seq<Bag>, ghost v: Bag, ghost outs: seq<Bag>, ghost was: seq<Bag>,
                        ghost before: seq<Bag>) returns (ok: bool, rows': seq<nat>)
      requires Shape() && result.Valid() && PassedBy(plan, layout, start, batch, was, before, live, outs, rows)
      requires id == |live| < |plan.nodes| && !plan.nodes[id].kind.Input? && !Untouched(plan, rows, id)
      requires Wrote(plan, layout, start, Now(), was, live, outs, written, v)
      requires Settles(plan, id) ==> Consolidated(tables[layout.slots[id]])
      modifies this`tables, result
      ensures Shape()
      ensures ok ==> Passed(batch, was, before, live + [v], outs + [old(tables)[layout.slots[id]]], rows')
      ensures PassesChecks(plan, sources, was, batch) ==> ok
    {
      ghost var wrote := Now();
      rows' := rows[id := written];
      WroteRun(plan, layout, start, wrote, batch, was, before, live, outs, rows, written, v);
      if PassesChecks(plan, sources, was, batch) && id == plan.output {
        ChecksAtResult(plan, sources, batch, was, live + [v], outs + [tables[layout.slots[id]]], result.rows.entries);
      }
      ok := ApplyOutput(tables[layout.slots[id]], written, id, was, before, live + [v]);
      if !ok { return; }
      Sweep(rows', id);
      TouchedStep(plan, layout, start, wrote, Now(), batch, was, before, live, outs, rows, written, v);
    }

    method PassTouched(batch: seq<Staged>, live: seq<Bag>, rows: seq<nat>, ghost outs: seq<Bag>, ghost was: seq<Bag>,
                       ghost before: seq<Bag>) returns (ok: bool, v: Bag, rows': seq<nat>, ghost out: Bag)
      requires Passed(batch, was, before, live, outs, rows) && Leads(plan, sources, batch, was, before)
      requires |live| < |plan.nodes| == |rows| && !plan.nodes[|live|].kind.Input? && !Untouched(plan, rows, |live|)
      modifies this`tables, this`supports, this`members, this`metadata, result
      ensures ok ==> Passed(batch, was, before, live + [v], outs + [out], rows')
      ensures PassesChecks(plan, sources, was, batch) ==> ok
    {
      var written;
      rows', out := rows, [];
      ghost var start := Now();
      if PassesChecks(plan, sources, was, batch) {
        ChecksAtNode(plan, layout, start, batch, was, before, live, outs, rows);
      }
      ok, v, written := RunTouched(batch, live, rows, outs, was, before);
      if !ok { return; }
      out := tables[layout.slots[|live|]];
      ok, rows' := CloseTouched(|live|, written, rows, start, batch, live, v, outs, was, before);
    }

    method PassNode(batch: seq<Staged>, live: seq<Bag>, rows: seq<nat>, ghost outs: seq<Bag>, ghost was: seq<Bag>,
                    ghost before: seq<Bag>)
      returns (ok: bool, live': seq<Bag>, rows': seq<nat>, ghost outs': seq<Bag>)
      requires Passed(batch, was, before, live, outs, rows) && Leads(plan, sources, batch, was, before)
      requires |live| < |plan.nodes| == |rows|
      modifies this`tables, this`supports, this`members, this`metadata, result
      ensures ok ==> Passed(batch, was, before, live', outs', rows') && |live'| == |live| + 1
      ensures PassesChecks(plan, sources, was, batch) ==> ok
    {
      ok, rows' := true, rows;
      ghost var out := [];
      var v;
      if plan.nodes[|live|].kind.Input? {
        v := PassSource(batch, live, rows, outs, was, before);
        out := SeedRows(batch, plan.nodes[|live|].kind.source);
      } else if Untouched(plan, rows, |live|) {
        v := PassSkipped(batch, live, rows, outs, was, before);
      } else {
        ok, v, rows', out := PassTouched(batch, live, rows, outs, was, before);
      }
      live', outs' := live + [v], outs + [out];
    }

    /** Before the first node, the source deltas are in place and nothing else is. */
    method Begin(batch: seq<Staged>, now: seq<Bag>) returns (ok: bool, rows: seq<nat>)
      requires Valid() && |now| == |sources|
      modifies this`tables, this`sources
      ensures Shape() && sources == now
      ensures ok ==> Passed(batch, values, old(sources), [], [], rows)
      ensures ok <==> SeedsFit(plan, batch)
    {
      ghost var was := values;
      assert StatesOk(plan, supports, members, was, []) by {
        forall n: nat | n < |plan.nodes|
          ensures StateOk(plan.nodes[n].kind, supports[n], members[n], InputValues(plan, if n < 0 then [] else was, n))
        {
          assert NodeOk(was, n);
        }
      }
      sources := now;
      ok, rows := Seed(batch);
    }

    method Finish(batch: seq<Staged>, live: seq<Bag>, rows: seq<nat>, ghost outs: seq<Bag>, ghost was: seq<Bag>,
                  ghost before: seq<Bag>)
      requires Passed(batch, was, before, live, outs, rows) && |live| == |plan.nodes|
      modifies this`tables, this`values
      ensures Valid() && values == live
    {
      FinalSweep(rows);
      values := live;
      forall id: nat | id < |plan.nodes| ensures NodeOk(values, id) {
        assert StateOk(plan.nodes[id].kind, supports[id], members[id], InputValues(plan, live, id));
      }
    }

    /** Every node in order. */
    method PassNodes(batch: seq<Staged>, rows: seq<nat>, ghost was: seq<Bag>, ghost before: seq<Bag>)
      returns (ok: bool, live: seq<Bag>, rows': seq<nat>, ghost outs: seq<Bag>)
      requires Passed(batch, was, before, [], [], rows) && Leads(plan, sources, batch, was, before)
      modifies this`tables, this`supports, this`members, this`metadata, result
      ensures ok ==> Passed(batch, was, before, live, outs, rows') && |live| == |plan.nodes|
      ensures PassesChecks(plan, sources, was, batch) ==> ok
    {
      ok, live, rows', outs := true, [], rows, [];
      for id := 0 to |plan.nodes|
        invariant ok && |live| == id && Passed(batch, was, before, live, outs, rows')
        invariant Leads(plan, sources, batch, was, before)
      {
        ok, live, rows', outs := PassNode(batch, live, rows', outs, was, before);
        if !ok { return; }
      }
    }

    /** Set-at-a-time maintenance of one batch. `now` are the sources the batch has
        already been applied to. Every node writes the change of its value, and the
        stored result goes from the old value of the query to the new one. A batch
        that passes its checks is never refused. */
    method Drain(batch: seq<Staged>, now: seq<Bag>) returns (ok: bool, ghost outs: seq<Bag>)
      requires Valid() && |now| == |sources| && AllPositive(now)
      requires forall s | 0 <= s < |now| :: IsDelta(SeedRows(batch, s), sources[s], now[s])
      requires SafePlan(plan, values, now)
      modifies this, result
      ensures ok ==> Valid() && sources == now
      ensures ok ==> |outs| == |values| && AllChanged(outs, old(values), values)
      ensures ok ==> Run(plan, now, old(values), batch, values, outs)
      ensures PassesChecks(plan, now, old(values), batch) ==> ok
      ensures ok ==> SeedsFit(plan, batch)
    {
      ghost var was, before := values, sources;
      var rows, live;
      outs := [];
      ok, rows := Begin(batch, now);
      if !ok { return; }
      ok, live, rows, outs := PassNodes(batch, rows, was, before);
      if !ok { return; }
      Finish(batch, live, rows, outs, was, before);
    }

    // ----------------------------------------------------------- initial population

    /** Count the reads of every node's rows. */
    method CountReads() returns (reads_: seq<nat>)
      requires LayoutOk(plan, layout)
      ensures Counted(plan, reads_, 0)
    {
      reads_ := seq(|plan.nodes|, _ => 0);
      reads_ := reads_[plan.output := reads_[plan.output] + 1];
      if plan.sums.Some? {
        var input := plan.nodes[plan.output].inputs[0];
        reads_ := reads_[input := reads_[input] + 1];
      }
      for id := 0 to |plan.nodes|
        invariant |reads_| == |plan.nodes|
        invariant forall n: nat | n < |reads_| :: reads_[n] + ReadsFrom(plan, id, n) == Remaining(plan, 0, n)
      {
        var inputs := ReadInputs(plan, id);
        ghost var counted := reads_;
        for j := 0 to |inputs|
          invariant |reads_| == |plan.nodes|
          invariant forall n: nat | n < |reads_| :: reads_[n] == counted[n] + Occurrences(inputs[..j], n)
        {
          ReadIsConsumed(plan, id, inputs[j]);
          assert inputs[..j + 1] == inputs[..j] + [inputs[j]];
          forall n: nat
            ensures Occurrences(inputs[..j + 1], n) == Occurrences(inputs[..j], n) + if inputs[j] == n then 1 else 0 {
            OccurrencesAppend(inputs[..j], [inputs[j]], n);
            assert [inputs[j]][1..] == [];
          }
          reads_ := reads_[inputs[j] := reads_[inputs[j]] + 1];
        }
        assert inputs[..|inputs|] == inputs;
      }
    }

    /** One read is done; the last one clears the table. The counter is positive. */
    method Exhaust(reads_: seq<nat>, child: nat) returns (reads': seq<nat>)
      requires Shape() && child < |reads_| == |plan.nodes| && reads_[child] > 0 && layout.slots[child] < |tables|
      modifies this`tables
      ensures Shape() && Pad(tables, reads') == ReadOnce(layout.slots, Pad(old(tables), reads_), child)
    {
      reads' := reads_[child := reads_[child] - 1];
      if reads'[child] == 0 {
        tables := tables[layout.slots[child] := []];
      }
    }

    /** The reads a node's population does. */
    method ExhaustInputs(reads_: seq<nat>, id: nat, ghost live: seq<Bag>) returns (reads': seq<nat>)
      requires Shape() && id < |plan.nodes| && |live| == id + 1 && Reading(plan, layout, Pad(tables, reads_), live, 0)
      modifies this`tables
      ensures Shape() && Reading(plan, layout, Pad(tables, reads'), live, |ReadInputs(plan, id)|)
      ensures layout.slots[id] < |old(tables)| && tables[layout.slots[id]] == old(tables)[layout.slots[id]]
    {
      var inputs := ReadInputs(plan, id);
      reads' := reads_;
      SlotInRange(plan, layout, id);
      for j := 0 to |inputs|
        invariant Shape() && Reading(plan, layout, Pad(tables, reads'), live, j)
        invariant tables[layout.slots[id]] == old(tables)[layout.slots[id]]
      {
        NodeReads(plan, layout, Pad(tables, reads'), live, j);
        reads' := Exhaust(reads', inputs[j]);
      }
    }

    /** The output is written and read once; a table that nobody reads is cleared. */
    method ExhaustOwn(reads_: seq<nat>, id: nat, ghost live: seq<Bag>) returns (ok: bool, reads': seq<nat>)
      requires Shape() && id < |plan.nodes| && |live| == id + 1
      requires Reading(plan, layout, Pad(tables, reads_), live, |ReadInputs(plan, id)|)
      requires layout.slots[id] < |tables| && Positive(live[id]) && tables[layout.slots[id]] == live[id]
      requires result.Valid() && (id == plan.output && result.inPlace ==> ApplyState.Singular(live[id], result.group))
      requires PartlyShown(plan, result.Contents(), live[..id])
      modifies this`tables, result
      ensures Shape() && (ok ==> Kept(layout.slots, Pad(tables, reads'), live) && Counted(plan, reads', id + 1))
      ensures ok ==> result.Valid() && PartlyShown(plan, result.Contents(), live)
      ensures ok <==> id != plan.output || ApplyState.WithinPeak(live[id])
    {
      NodeDone(plan, layout, Pad(tables, reads_), live);
      ok, reads' := true, reads_;
      if id == plan.output {
        ok := result.Write(tables[layout.slots[id]]);
        reads' := Exhaust(reads_, id);
      } else if reads_[id] == 0 {
        tables := tables[layout.slots[id] := []];
      }
    }

    /** What the statements that populate a node may rely on: `live` are the values of
        the nodes so far, and the tables that the node reads hold those of its inputs. */
    ghost predicate Fillable(live: seq<Bag>, reads_: seq<nat>, id: nat)
      reads this
    {
      Shape() && id == |live| < |plan.nodes| && FillableBy(plan, layout, sources, Pad(tables, reads_), live)
      && supports[id] == map[] && members[id] == Tables.Table([], 0)
    }

    /** UNION and DISTINCT count their inputs' tables and choose representatives from them. */
    method FillUnion(t: seq<Bag>, id: nat, ghost live: seq<Bag>, ghost reads_: seq<nat>) returns (out: Bag)
      requires Fillable(live, reads_, id) && plan.nodes[id].kind.Set? && plan.nodes[id].kind.op.Union?
      requires t == InputTables(plan, layout, tables, id)
      modifies this`supports
      ensures Shape() && (forall n | 0 <= n < |supports| && n != id :: supports[n] == old(supports[n]))
      ensures Positive(out) && EvaluatesAll(plan, sources, live + [out]) && NodeOk(live, id)
    {
      InputsComplete(plan, layout, Pad(tables, reads_), live);
      var node := new SupportTable(Order(Itself, exact));
      out := node.Populate(t[0], RightOf(t));
      forall x ensures Net(out, x) == Net(EvalSet(Union, t), x) {
        ShownIsUnion(node.state, t, x);
      }
      FaithfulSame(node.state, t, InputValues(plan, live, id));
      supports := supports[id := node.state];
      ComputedNext(plan, sources, live, t, out);
    }

    /** The anchor and the rounds read the inputs' tables. */
    method FillFixpoint(t: seq<Bag>, id: nat, ghost live: seq<Bag>, ghost reads_: seq<nat>)
      returns (ok: bool, out: Bag)
      requires Fillable(live, reads_, id) && plan.nodes[id].kind.Fixpoint?
      requires t == InputTables(plan, layout, tables, id)
      modifies this`members
      ensures Shape() && (forall n | 0 <= n < |members| && n != id :: members[n] == old(members[n]))
      ensures ok ==> Positive(out) && EvaluatesAll(plan, sources, live + [out]) && NodeOk(live, id)
      ensures FillFits(plan, live) ==> ok
    {
      var rules := plan.nodes[id].kind.rules;
      InputsComplete(plan, layout, Pad(tables, reads_), live);
      SetsOfSame(t, InputValues(plan, live, id));
      var none := seq(|t|, _ => []);
      SidesOfOk(t, t, none);
      ItselfRespected(rules, |t|);
      ItselfMeans(rules, |t|, SetsOf(t));
      var node := new FixpointNode(rules, |t|, Itself);
      var written;
      ghost var universe: set<Row> := {};
      if FillFits(plan, live) {
        universe :| RoundsFit(Lfp(rules, SetsOf(t)), universe);
      }
      ok, written := node.Populate(SidesOf(t, none), universe);
      out := node.out;
      if ok {
        MemberRows(node.all);
        assert out == Weigh(Tables.EntryRows(node.all.entries), 1);
        members := members[id := node.all];
        SameInputs(plan, live, out, id);
        NextEvaluates(plan, sources, live, out);
      }
    }

    /** A map and UNION ALL copy the table of their first input. */
    method FillCopy(id: nat, ghost live: seq<Bag>, ghost reads_: seq<nat>) returns (out: Bag)
      requires Fillable(live, reads_, id) && (plan.nodes[id].kind.Map? || IsUnionAll(plan, id))
      ensures Positive(out) && EvaluatesAll(plan, sources, live + [out])
    {
      var kind := plan.nodes[id].kind;
      InputComplete(plan, layout, Pad(tables, reads_), live, 0);
      var first := tables[layout.slots[plan.nodes[id].inputs[0]]];
      out := EvalNode(kind, [first], 0, 0);
      EvalPositive(kind, [first], 0, 0);
      InputsPositive(plan, sources, live, id);
      CopiedFirst(kind, first, InputValues(plan, live, id));
      ComputedNext(plan, sources, live, InputValues(plan, live, id), out);
    }

    /** Materialize one node from the tables of its inputs. */
    method Fill(id: nat, ghost live: seq<Bag>, ghost reads_: seq<nat>) returns (ok: bool, out: Bag)
      requires Fillable(live, reads_, id)
      modifies this`supports, this`members
      ensures Shape()
      ensures forall n | 0 <= n < |plan.nodes| && n != id ::
                supports[n] == old(supports[n]) && members[n] == old(members[n])
      ensures ok ==> Positive(out) && EvaluatesAll(plan, sources, live + [out]) && NodeOk(live, id)
      ensures !plan.nodes[id].kind.Fixpoint? ==> (ok <==> Fits(InputTables(plan, layout, tables, id), id))
      ensures FillFits(plan, live) ==> ok
    {
      var kind := plan.nodes[id].kind;
      var t := InputTables(plan, layout, tables, id);
      ok := true;
      if kind.Input? {
        out := sources[kind.source];
        NextEvaluates(plan, sources, live, out);
      } else if kind.Map? || IsUnionAll(plan, id) {
        out := FillCopy(id, live, reads_);
      } else if kind.Set? && kind.op.Union? {
        out := FillUnion(t, id, live, reads_);
      } else if kind.Fixpoint? {
        ok, out := FillFixpoint(t, id, live, reads_);
      } else {
        ok, out := FillKeyed(t, id, live, reads_);
      }
    }

    /** The checks that a node's materialization makes. */
    predicate Fits(t: seq<Bag>, id: nat)
      reads this
      requires ValidPlan(plan) && id < |plan.nodes| && |t| == |plan.nodes[id].inputs|
    {
      Keyed(plan.nodes[id].kind) ==>
        WithinBudgets(plan.nodes[id].kind, t, InputWidth(plan, id, 0), InputWidth(plan, id, 1))
    }

    /** Joins, groups, EXCEPT and INTERSECT evaluate the tables of their inputs. */
    method FillKeyed(t: seq<Bag>, id: nat, ghost live: seq<Bag>, ghost reads_: seq<nat>) returns (ok: bool, out: Bag)
      requires Fillable(live, reads_, id) && Keyed(plan.nodes[id].kind)
      requires t == InputTables(plan, layout, tables, id)
      ensures ok <==> Fits(t, id)
      ensures FillFits(plan, live) ==> ok
      ensures ok ==> Positive(out) && EvaluatesAll(plan, sources, live + [out])
    {
      var kind, lw, rw := plan.nodes[id].kind, InputWidth(plan, id, 0), InputWidth(plan, id, 1);
      InputsComplete(plan, layout, Pad(tables, reads_), live);
      ok, out := Execute(kind, t, lw, rw);
      if ok {
        EvalPositive(kind, t, lw, rw);
        ComputedNext(plan, sources, live, t, out);
      }
    }

    /** No row can come from the inputs, judging by how many rows they wrote. */
    method EmptyInput(rows: seq<nat>, id: nat, ghost live: seq<Bag>) returns (empty: bool)
      requires ValidPlan(plan) && id < |plan.nodes| == |rows| && |live| == id
      requires forall n: nat | n < id && rows[n] == 0 :: live[n] == []
      ensures empty ==> NothingToRead(plan.nodes[id].kind, InputValues(plan, live, id))
    {
      var kind, inputs := plan.nodes[id].kind, plan.nodes[id].inputs;
      if kind.Map? {
        empty := rows[inputs[0]] == 0;
      } else if kind.Join? && kind.mode.Inner? {
        empty := rows[inputs[0]] == 0 || rows[inputs[1]] == 0;
      } else if kind.Set? {
        empty := forall i | 0 <= i < |inputs| :: rows[inputs[i]] == 0;
      } else {
        empty := false;
      }
    }

    /** Nothing to materialize: the node's value is empty, and so is its state. */
    lemma NothingFills(live: seq<Bag>, reads_: seq<nat>, id: nat)
      requires Fillable(live, reads_, id) && NothingToRead(plan.nodes[id].kind, InputValues(plan, live, id))
      requires !plan.nodes[id].kind.Input? && !plan.nodes[id].kind.Fixpoint?
      ensures EvaluatesAll(plan, sources, live + [[]]) && NodeOk(live, id)
    {
      var b := InputValues(plan, live, id);
      NothingEvaluates(plan.nodes[id].kind, b, InputWidth(plan, id, 0), InputWidth(plan, id, 1));
      InputsPositive(plan, sources, live, id);
      ComputedNext(plan, sources, live, b, []);
      if plan.nodes[id].kind.Set? && plan.nodes[id].kind.op.Union? {
        assert forall k :: FaithfulAt(Itself, map[], [], [], k);
      }
    }

    /** What holds when the nodes of `live` are populated. */
    ghost predicate Populated(live: seq<Bag>, reads_: seq<nat>, rows: seq<nat>)
      reads this, result
    {
      Shape() && result.Valid() && PopulatedBy(plan, layout, Now(), live, reads_, rows)
    }

    /** The next node's rows and its state. */
    method FillNext(rows: seq<nat>, id: nat, ghost live: seq<Bag>, ghost reads_: seq<nat>)
      returns (ok: bool, out: Bag)
      requires Populated(live, reads_, rows) && id == |live| < |plan.nodes| && Fillable(live, reads_, id)
      modifies this`supports, this`members
      ensures Shape()
      ensures ok ==> Positive(out) && EvaluatesAll(plan, sources, live + [out])
      ensures ok ==> StatesFilled(plan, supports, members, live + [out])
      ensures FillFits(plan, live) ==> ok
    {
      var empty := EmptyInput(rows, id, live);
      ok, out := true, [];
      if empty {
        NothingFills(live, reads_, id);
      } else {
        ok, out := Fill(id, live, reads_);
      }
      if ok {
        StatesFill(plan, old(supports), old(members), supports, members, live, out);
      }
    }

    /** A written node reads its inputs and, if it is the output, gives the result. */
    method ExhaustNode(reads_: seq<nat>, ghost rows: seq<nat>, id: nat, ghost live: seq<Bag>)
      returns (ok: bool, reads': seq<nat>)
      requires Shape() && |live| == id + 1 <= |plan.nodes| && result.Valid()
      requires WrittenBy(plan, layout, Now(), live, reads_, rows)
      modifies this`tables, result
      ensures Shape() && (ok ==> Populated(live, reads', rows))
      ensures ok <==> id != plan.output || ApplyState.WithinPeak(live[id])
    {
      reads' := ExhaustInputs(reads_, id, live);
      if id == plan.output && result.inPlace {
        OutputSingular(plan, sources, live);
      }
      ok, reads' := ExhaustOwn(reads', id, live);
    }

    /** Populate the next node: its rows, its reads, and the result if it is the output. */
    method PopulateNode(reads_: seq<nat>, rows: seq<nat>, id: nat, ghost live: seq<Bag>)
      returns (ok: bool, reads': seq<nat>, rows': seq<nat>, ghost v: Bag)
      requires Populated(live, reads_, rows) && id == |live| < |plan.nodes| && Fillable(live, reads_, id)
      modifies this`tables, this`supports, this`members, result
      ensures Shape() && (ok ==> Populated(live + [v], reads', rows'))
      ensures PopulationPasses(plan, sources) ==> ok
    {
      reads', rows' := reads_, rows;
      ghost var start := Now();
      var out;
      ok, out := FillNext(rows, id, live, reads_);
      v := out;
      if !ok { return; }
      SlotInRange(plan, layout, id);
      tables := tables[layout.slots[id] := out];
      rows' := rows[id := |out|];
      PopulatedWrite(plan, layout, start, Now(), live, reads_, rows, out);
      ok, reads' := ExhaustNode(reads_, rows', id, live + [out]);
    }

    /** Every node in order. */
    method PopulateNodes() returns (ok: bool, reads_: seq<nat>, rows: seq<nat>, ghost live: seq<Bag>)
      requires Shape() && AllPositive(sources) && result.Valid() && result.Contents() == []
      requires forall n | 0 <= n < |plan.nodes| ::
                 tables[n] == [] && supports[n] == map[] && members[n] == Tables.Table([], 0)
      requires SourcesGiven(plan, sources) && CopiesFirst(plan, sources)
      modifies this`tables, this`supports, this`members, result
      ensures ok ==> Populated(live, reads_, rows) && |live| == |plan.nodes|
      ensures PopulationPasses(plan, sources) ==> ok
    {
      reads_ := CountReads();
      rows := seq(|plan.nodes|, _ => 0);
      ok, live := true, [];
      PopulatedStart(plan, layout, Now(), reads_, rows);
      for id := 0 to |plan.nodes|
        invariant ok && |live| == id && sources == old(sources) && Populated(live, reads_, rows)
      {
        ghost var v;
        FillableNext(plan, layout, Now(), live, reads_, rows);
        ok, reads_, rows, v := PopulateNode(reads_, rows, id, live);
        if !ok { return; }
        live := live + [v];
      }
    }

    /** COUNT and SUM read their input's table once more, and leave it empty. */
    method Measure(reads_: seq<nat>, ghost live: seq<Bag>)
      requires Shape() && |live| == |plan.nodes| == |reads_| && LastRead(plan, layout, Pad(tables, reads_), live)
      modifies this`tables, this`metadata
      ensures Shape() && MetaOk(plan, metadata, live) && forall s | 0 <= s < |tables| :: tables[s] == []
    {
      if plan.sums.Some? {
        var input := plan.nodes[plan.output].inputs[0];
        metadata := Aggregate.Measured(plan.sums.value.query, tables[layout.slots[input]]);
        var none := Exhaust(reads_, input);
      }
    }

    /** Initial population of a new view: afterwards every node's state, the stored
        result and the empty scratch tables are those of the current sources. No node
        is read but from the scratch tables, shared as they are. A view that passes its
        checks is never refused. */
    method Populate(now: seq<Bag>) returns (ok: bool)
      requires Shape() && AllPositive(now) && result.Valid() && result.Contents() == [] && metadata == map[]
      requires forall n | 0 <= n < |plan.nodes| ::
                 tables[n] == [] && supports[n] == map[] && members[n] == Tables.Table([], 0)
      requires SourcesGiven(plan, now) && CopiesFirst(plan, now)
      modifies this, result
      ensures ok ==> Valid() && sources == now
      ensures PopulationPasses(plan, now) ==> ok
    {
      sources := now;
      var reads_, rows;
      ghost var live;
      ok, reads_, rows, live := PopulateNodes();
      if !ok { return; }
      PopulatedDone(plan, layout, Now(), live, reads_, rows);
      Measure(reads_, live);
      values := live;
    }
  }

  /** The result is applied in place or copy by copy as the plan's marks say. */
  ghost predicate WrittenAs(plan: Plan, inPlace: bool, group: Row -> Row)
    requires ValidPlan(plan)
  {
    OutputOk(plan) && inPlace == AppliesInPlace(plan) && (inPlace ==> group == plan.shown.value)
  }

  /** The values so far: the new ones from the output's node on, the old ones until then. */
  ghost function AtOutput(plan: Plan, was: seq<Bag>, live: seq<Bag>): (vs: seq<Bag>)
    requires ValidPlan(plan) && |was| == |plan.nodes|
    ensures plan.output < |vs|
  {
    if plan.output < |live| then live else was
  }

  /** The metadata of the COUNT/SUM path describes the output group's input. */
  ghost predicate MetaOk(plan: Plan, metadata: map<Row, Aggregate.Meta>, vs: seq<Bag>)
    requires ValidPlan(plan) && plan.output <= |vs|
  {
    plan.sums.Some? ==> Aggregate.AllMeta(plan.sums.value.query, metadata, InputValues(plan, vs, plan.output)[0])
  }

  /** The metadata stays right when the loop passes a node. */
  lemma MetaPass(plan: Plan, metadata0: map<Row, Aggregate.Meta>, metadata: map<Row, Aggregate.Meta>,
                 was: seq<Bag>, live: seq<Bag>, v: Bag)
    requires ValidPlan(plan) && |live| < |plan.nodes| == |was|
    requires MetaOk(plan, metadata0, AtOutput(plan, was, live))
    requires if |live| == plan.output then MetaOk(plan, metadata, live) else metadata == metadata0
    ensures MetaOk(plan, metadata, AtOutput(plan, was, live + [v]))
  {
    if |live| >= plan.output {
      assert InputValues(plan, live + [v], plan.output) == InputValues(plan, live, plan.output);
    }
  }

  lemma UnchangedMeta(plan: Plan, sources: seq<Bag>, was: seq<Bag>, live: seq<Bag>,
                      metadata: map<Row, Aggregate.Meta>)
    requires ValidPlan(plan) && |live| < |plan.nodes| == |was| && EvaluatesAll(plan, sources, was)
    requires MetaOk(plan, metadata, AtOutput(plan, was, live))
    requires AllSame(InputValues(plan, was, |live|), InputValues(plan, live, |live|))
    ensures forall v :: MetaOk(plan, metadata, AtOutput(plan, was, live + [v]))
  {
    if plan.sums.Some? && |live| == plan.output {
      InputsPositive(plan, sources, was, plan.output);
      Aggregate.MetaSame(plan.sums.value.query, metadata, InputValues(plan, was, plan.output)[0],
                         InputValues(plan, live, plan.output)[0]);
    }
  }

  /** The engine's tables as one value, and the stored result as a bag. */
  datatype Snapshot = Snapshot(sources: seq<Bag>, tables: seq<Bag>, supports: seq<State>, members: seq<Tables.Table>,
                               metadata: map<Row, Aggregate.Meta>, shown: Bag)

  ghost predicate PassedBy(plan: Plan, layout: Layout, at: Snapshot, batch: seq<Staged>, was: seq<Bag>,
                           before: seq<Bag>, live: seq<Bag>, outs: seq<Bag>, rows: seq<nat>)
    requires LayoutOk(plan, layout)
  {
    && |at.supports| == |at.members| == |plan.nodes| == |was| == |rows| && |live| <= |plan.nodes|
    && EvaluatesAll(plan, before, was) && Run(plan, at.sources, was, batch, live, outs)
    && Progress(plan, layout, at.tables, rows, outs, batch)
    && StatesOk(plan, at.supports, at.members, was, live)
    && Same(at.shown, AtOutput(plan, was, live)[plan.output]) && MetaOk(plan, at.metadata, AtOutput(plan, was, live))
  }

  /** The batch leads from the old sources to the current ones. */
  ghost predicate Leads(plan: Plan, sources: seq<Bag>, batch: seq<Staged>, was: seq<Bag>, before: seq<Bag>)
    requires ValidPlan(plan)
  {
    && |was| == |plan.nodes| && |before| == |sources| && AllPositive(sources)
    && (forall s | 0 <= s < |sources| :: IsDelta(SeedRows(batch, s), before[s], sources[s]))
    && SafePlan(plan, was, sources)
  }

  /** No input of the node wrote a row. */
  predicate Untouched(plan: Plan, rows: seq<nat>, id: nat)
    requires ValidPlan(plan) && id < |plan.nodes| == |rows|
  {
    forall i | 0 <= i < |plan.nodes[id].inputs| :: rows[plan.nodes[id].inputs[i]] == 0
  }

  lemma SourceReady(plan: Plan, layout: Layout, at: Snapshot, batch: seq<Staged>, was: seq<Bag>, before: seq<Bag>,
                    live: seq<Bag>, outs: seq<Bag>, rows: seq<nat>)
    requires LayoutOk(plan, layout) && PassedBy(plan, layout, at, batch, was, before, live, outs, rows)
    requires Leads(plan, at.sources, batch, was, before)
    requires |live| < |plan.nodes| && plan.nodes[|live|].kind.Input?
    ensures StateOk(plan.nodes[|live|].kind, at.supports[|live|], at.members[|live|], InputValues(plan, live, |live|))
    ensures plan.nodes[|live|].kind.source < |at.sources| && Positive(at.sources[plan.nodes[|live|].kind.source])
    ensures EvaluatesAll(plan, at.sources, live)
  {
    assert Evaluates(plan, before, was, |live|);
  }

  lemma SourceStep(plan: Plan, layout: Layout, at: Snapshot, batch: seq<Staged>, was: seq<Bag>, before: seq<Bag>,
                   live: seq<Bag>, outs: seq<Bag>, rows: seq<nat>, v: Bag)
    requires LayoutOk(plan, layout) && PassedBy(plan, layout, at, batch, was, before, live, outs, rows)
    requires Leads(plan, at.sources, batch, was, before)
    requires |live| < |plan.nodes| && plan.nodes[|live|].kind.Input? && EvaluatesAll(plan, at.sources, live + [v])
    ensures PassedBy(plan, layout, at, batch, was, before, live + [v],
                     outs + [SeedRows(batch, plan.nodes[|live|].kind.source)], rows)
  {
    SourceReady(plan, layout, at, batch, was, before, live, outs, rows);
    SourceChange(plan, before, at.sources, was, live, batch, v);
    RunSnoc(plan, at.sources, was, batch, live, outs, v, SeedRows(batch, plan.nodes[|live|].kind.source));
    SourcePasses(plan, layout, at.tables, rows, outs, batch);
    StatesPass(plan, at.supports, at.members, at.supports, at.members, was, live, v);
    SourceIsNotOutput(plan, |live|);
    MetaPass(plan, at.metadata, at.metadata, was, live, v);
  }

  lemma SkippedReady(plan: Plan, layout: Layout, at: Snapshot, batch: seq<Staged>, was: seq<Bag>, before: seq<Bag>,
                     live: seq<Bag>, outs: seq<Bag>, rows: seq<nat>)
    requires LayoutOk(plan, layout) && PassedBy(plan, layout, at, batch, was, before, live, outs, rows)
    requires |live| < |plan.nodes| == |rows| && !plan.nodes[|live|].kind.Input? && Untouched(plan, rows, |live|)
    ensures AllSame(InputValues(plan, was, |live|), InputValues(plan, live, |live|))
    ensures IsChange(plan, at.sources, was, live, |live|, []) && Quiet(InputValues(plan, outs, |live|))
    ensures StateOk(plan.nodes[|live|].kind, at.supports[|live|], at.members[|live|], InputValues(plan, live, |live|))
    ensures EvaluatesAll(plan, at.sources, live)
  {
    var id := |live|;
    InputsChanged(plan, layout, at.tables, rows, was, live, outs, batch);
    assert StateOk(plan.nodes[id].kind, at.supports[id], at.members[id], InputValues(plan, was, id));
    UnchangedNode(plan, before, at.sources, was, live, id, at.supports[id], at.members[id]);
  }

  lemma SkippedStep(plan: Plan, layout: Layout, at: Snapshot, batch: seq<Staged>, was: seq<Bag>, before: seq<Bag>,
                    live: seq<Bag>, outs: seq<Bag>, rows: seq<nat>, v: Bag)
    requires LayoutOk(plan, layout) && PassedBy(plan, layout, at, batch, was, before, live, outs, rows)
    requires |live| < |plan.nodes| == |rows| && !plan.nodes[|live|].kind.Input? && Untouched(plan, rows, |live|)
    requires EvaluatesAll(plan, at.sources, live + [v])
    ensures PassedBy(plan, layout, at, batch, was, before, live + [v], outs + [[]], rows)
  {
    SkippedReady(plan, layout, at, batch, was, before, live, outs, rows);
    ChangeOfNode(plan, at.sources, was, live, [], v);
    RunSnoc(plan, at.sources, was, batch, live, outs, v, []);
    SkippedSweep(plan, layout, at.tables, rows, |live|);
    NodePasses(plan, layout, at.tables, rows, outs, batch, [], at.tables);
    StatesPass(plan, at.supports, at.members, at.supports, at.members, was, live, v);
    UnchangedMeta(plan, before, was, live, at.metadata);
  }

  lemma TouchedReady(plan: Plan, layout: Layout, at: Snapshot, batch: seq<Staged>, was: seq<Bag>, before: seq<Bag>,
                     live: seq<Bag>, outs: seq<Bag>, rows: seq<nat>, d: seq<Bag>, touched: seq<bool>)
    requires LayoutOk(plan, layout) && PassedBy(plan, layout, at, batch, was, before, live, outs, rows)
    requires Leads(plan, at.sources, batch, was, before)
    requires |live| < |plan.nodes| == |rows| && !plan.nodes[|live|].kind.Input? && !Untouched(plan, rows, |live|)
    requires |at.tables| == |plan.nodes| && d == InputTables(plan, layout, at.tables, |live|) && |touched| == |d|
    requires forall i | 0 <= i < |d| :: touched[i] <==> rows[plan.nodes[|live|].inputs[i]] != 0
    ensures d == InputValues(plan, outs, |live|) && EvaluatesAll(plan, at.sources, live)
    ensures AllDeltas(d, InputValues(plan, was, |live|), InputValues(plan, live, |live|))
    ensures forall i | 0 <= i < |d| :: !touched[i] <==> d[i] == []
    ensures exists i :: 0 <= i < |d| && d[i] != []
    ensures StateOk(plan.nodes[|live|].kind, at.supports[|live|], at.members[|live|], InputValues(plan, was, |live|))
    ensures SafeNode(plan.nodes[|live|].kind, InputValues(plan, was, |live|), InputValues(plan, live, |live|))
  {
    InputsChanged(plan, layout, at.tables, rows, was, live, outs, batch);
    TouchedInputs(plan, d, touched, rows, |live|);
    assert StateOk(plan.nodes[|live|].kind, at.supports[|live|], at.members[|live|], InputValues(plan, was, |live|));
  }

  /** The node's statements ran: only its table and its state changed, the table holds
      `written` rows that they may write and that are the change of its value, and `v`
      is its new value. */
  ghost predicate Wrote(plan: Plan, layout: Layout, start: Snapshot, at: Snapshot, was: seq<Bag>, live: seq<Bag>,
                        outs: seq<Bag>, written: nat, v: Bag)
    requires LayoutOk(plan, layout) && |live| == |outs| < |plan.nodes| == |was|
    requires !plan.nodes[|live|].kind.Input?
  {
    var s := layout.slots[|live|];
    && |at.supports| == |at.members| == |plan.nodes|
    && s < |at.tables| == |start.tables| && at.tables == start.tables[s := at.tables[s]] && written == |at.tables[s]|
    && at.sources == start.sources && at.shown == start.shown
    && IsDelta(at.tables[s], was[|live|], v)
    && Writes(plan, live, InputValues(plan, outs, |live|), |live|, at.tables[s])
    && EvaluatesAll(plan, at.sources, live + [v]) && StatesOk(plan, at.supports, at.members, was, live + [v])
    && MetaOk(plan, at.metadata, AtOutput(plan, was, live + [v]))
  }

  lemma WroteNode(plan: Plan, layout: Layout, start: Snapshot, at: Snapshot, batch: seq<Staged>, was: seq<Bag>,
                  before: seq<Bag>, live: seq<Bag>, outs: seq<Bag>, rows: seq<nat>, written: nat, v: Bag)
    requires LayoutOk(plan, layout) && PassedBy(plan, layout, start, batch, was, before, live, outs, rows)
    requires |live| < |plan.nodes| && |at.supports| == |at.members| == |plan.nodes|
    requires !plan.nodes[|live|].kind.Input?
    requires forall n | 0 <= n < |plan.nodes| && n != |live| ::
               at.supports[n] == start.supports[n] && at.members[n] == start.members[n]
    requires StateOk(plan.nodes[|live|].kind, at.supports[|live|], at.members[|live|], InputValues(plan, live, |live|))
    requires if |live| == plan.output then MetaOk(plan, at.metadata, live) else at.metadata == start.metadata
    requires layout.slots[|live|] < |at.tables| == |start.tables|
    requires at.tables == start.tables[layout.slots[|live|] := at.tables[layout.slots[|live|]]]
    requires written == |at.tables[layout.slots[|live|]]|
    requires IsChange(plan, at.sources, was, live, |live|, at.tables[layout.slots[|live|]])
    requires Writes(plan, live, InputValues(plan, outs, |live|), |live|, at.tables[layout.slots[|live|]])
    requires at.sources == start.sources && at.shown == start.shown && EvaluatesAll(plan, at.sources, live + [v])
    ensures Wrote(plan, layout, start, at, was, live, outs, written, v)
  {
    ChangeOfNode(plan, at.sources, was, live, at.tables[layout.slots[|live|]], v);
    StatesPass(plan, start.supports, start.members, at.supports, at.members, was, live, v);
    MetaPass(plan, start.metadata, at.metadata, was, live, v);
  }

  /** The run goes on past a touched node. */
  lemma WroteRun(plan: Plan, layout: Layout, start: Snapshot, at: Snapshot, batch: seq<Staged>, was: seq<Bag>,
                 before: seq<Bag>, live: seq<Bag>, outs: seq<Bag>, rows: seq<nat>, written: nat, v: Bag)
    requires LayoutOk(plan, layout) && PassedBy(plan, layout, start, batch, was, before, live, outs, rows)
    requires |live| < |plan.nodes| && !plan.nodes[|live|].kind.Input? && !Untouched(plan, rows, |live|)
    requires Wrote(plan, layout, start, at, was, live, outs, written, v)
    ensures (live + [v])[..|live|] == live && (live + [v])[|live|] == v
    ensures Run(plan, at.sources, was, batch, live + [v], outs + [at.tables[layout.slots[|live|]]])
  {
    InputsChanged(plan, layout, start.tables, rows, was, live, outs, batch);
    var i :| 0 <= i < |plan.nodes[|live|].inputs| && rows[plan.nodes[|live|].inputs[i]] != 0;
    assert InputValues(plan, outs, |live|)[i] != [];
    RunSnoc(plan, at.sources, was, batch, live, outs, v, at.tables[layout.slots[|live|]]);
  }

  /** The result is up to date and the tables are swept. */
  lemma TouchedStep(plan: Plan, layout: Layout, start: Snapshot, wrote: Snapshot, at: Snapshot, batch: seq<Staged>,
                    was: seq<Bag>, before: seq<Bag>, live: seq<Bag>, outs: seq<Bag>, rows: seq<nat>, written: nat,
                    v: Bag)
    requires LayoutOk(plan, layout) && PassedBy(plan, layout, start, batch, was, before, live, outs, rows)
    requires |live| < |plan.nodes| == |rows| && !plan.nodes[|live|].kind.Input? && !Untouched(plan, rows, |live|)
    requires Wrote(plan, layout, start, wrote, was, live, outs, written, v)
    requires at == wrote.(tables := at.tables, shown := at.shown)
    requires Same(at.shown, AtOutput(plan, was, live + [v])[plan.output])
    requires SweptAfter(plan, layout, wrote.tables, at.tables, rows[|live| := written], |live|)
    ensures PassedBy(plan, layout, at, batch, was, before, live + [v], outs + [wrote.tables[layout.slots[|live|]]],
                     rows[|live| := written])
  {
    WroteRun(plan, layout, start, wrote, batch, was, before, live, outs, rows, written, v);
    NodePasses(plan, layout, start.tables, rows, outs, batch, wrote.tables[layout.slots[|live|]], at.tables);
  }

  /** A batch that passes its checks passes them at the node that a run has reached. */
  lemma ChecksAtNode(plan: Plan, layout: Layout, at: Snapshot, batch: seq<Staged>, was: seq<Bag>, before: seq<Bag>,
                     live: seq<Bag>, outs: seq<Bag>, rows: seq<nat>)
    requires LayoutOk(plan, layout) && PassedBy(plan, layout, at, batch, was, before, live, outs, rows)
    requires |live| < |plan.nodes| && !plan.nodes[|live|].kind.Input? && !Untouched(plan, rows, |live|)
    requires PassesChecks(plan, at.sources, was, batch)
    ensures NodeFits(plan, was, live, InputValues(plan, outs, |live|))
  {
    InputsChanged(plan, layout, at.tables, rows, was, live, outs, batch);
    var i :| 0 <= i < |plan.nodes[|live|].inputs| && rows[plan.nodes[|live|].inputs[i]] != 0;
    assert InputValues(plan, outs, |live|)[i] != [];
    assert FitsHere(plan, was, live, outs);
  }

  lemma ChecksAtResult(plan: Plan, sources: seq<Bag>, batch: seq<Staged>, was: seq<Bag>, live: seq<Bag>,
                       outs: seq<Bag>, entries: seq<Tables.Entry>)
    requires ValidPlan(plan) && |was| == |plan.nodes| && Run(plan, sources, was, batch, live, outs)
    requires PassesChecks(plan, sources, was, batch) && |live| == plan.output + 1
    requires Same(ApplyState.Stored(entries), was[plan.output])
    ensures
      var out := outs[plan.output];
      || out == [] || AppliesInPlace(plan) || FitsCopies(entries, out)
      || (Settles(plan, plan.output) && ApplyState.WithinPeak(out))
  {
    assert FitsHere(plan, was, live, outs);
    var out := outs[plan.output];
    if Covers(was[plan.output], out) {
      forall r ensures Net(ApplyState.Retractions(out), r) <= Net(ApplyState.Stored(entries), r) {}
    }
  }

  /** Nothing is stored before the output is populated, and then its value is. */
  ghost predicate PartlyShown(plan: Plan, shown: Bag, live: seq<Bag>) {
    if |live| <= plan.output then shown == [] else Same(shown, live[plan.output])
  }

  ghost predicate PopulatedBy(plan: Plan, layout: Layout, at: Snapshot, live: seq<Bag>, reads_: seq<nat>,
                              rows: seq<nat>)
    requires LayoutOk(plan, layout)
  {
    && |live| <= |plan.nodes| == |rows| == |at.supports| == |at.members|
    && AllPositive(at.sources) && EvaluatesAll(plan, at.sources, live)
    && Kept(layout.slots, Pad(at.tables, reads_), live) && Counted(plan, reads_, |live|)
    && (forall n: nat | n < |live| && rows[n] == 0 :: live[n] == [])
    && StatesFilled(plan, at.supports, at.members, live) && PartlyShown(plan, at.shown, live)
  }

  ghost predicate FillableBy(plan: Plan, layout: Layout, sources: seq<Bag>, pad: Pad, live: seq<Bag>)
    requires LayoutOk(plan, layout) && |live| < |plan.nodes|
  {
    && EvaluatesAll(plan, sources, live) && AllPositive(sources)
    && Kept(layout.slots, pad, live) && Counted(plan, pad.reads_, |live|)
    && (plan.nodes[|live|].kind.Input? ==> plan.nodes[|live|].kind.source < |sources|)
    && (IsUnionAll(plan, |live|) ==> OthersEmpty(InputValues(plan, live, |live|)))
  }

  predicate SourcesGiven(plan: Plan, sources: seq<Bag>) {
    forall n | 0 <= n < |plan.nodes| :: plan.nodes[n].kind.Input? ==> plan.nodes[n].kind.source < |sources|
  }

  lemma PopulatedStart(plan: Plan, layout: Layout, at: Snapshot, reads_: seq<nat>, rows: seq<nat>)
    requires LayoutOk(plan, layout) && |at.tables| == |at.supports| == |at.members| == |rows| == |plan.nodes|
    requires forall n | 0 <= n < |plan.nodes| ::
               at.tables[n] == [] && at.supports[n] == map[] && at.members[n] == Tables.Table([], 0)
    requires AllPositive(at.sources) && at.shown == [] && Counted(plan, reads_, 0)
    ensures PopulatedBy(plan, layout, at, [], reads_, rows)
  {
  }

  /** The next node may be filled. */
  lemma FillableNext(plan: Plan, layout: Layout, at: Snapshot, live: seq<Bag>, reads_: seq<nat>, rows: seq<nat>)
    requires LayoutOk(plan, layout) && |live| < |plan.nodes| && PopulatedBy(plan, layout, at, live, reads_, rows)
    requires SourcesGiven(plan, at.sources) && CopiesFirst(plan, at.sources)
    ensures FillableBy(plan, layout, at.sources, Pad(at.tables, reads_), live)
    ensures at.supports[|live|] == map[] && at.members[|live|] == Tables.Table([], 0)
  {
  }

  /** Only the input of COUNT and SUM is still to be read, if any. */
  ghost predicate LastRead(plan: Plan, layout: Layout, pad: Pad, live: seq<Bag>)
    requires LayoutOk(plan, layout) && |live| == |plan.nodes| == |pad.reads_|
  {
    if plan.sums.None? then forall s | 0 <= s < |pad.tables| :: pad.tables[s] == []
    else
      var input := plan.nodes[plan.output].inputs[0];
      && pad.reads_[input] == 1 && layout.slots[input] < |pad.tables|
      && (forall s | 0 <= s < |pad.tables| :: ReadOnce(layout.slots, pad, input).tables[s] == [])
      && MetaOk(plan, Aggregate.Measured(plan.sums.value.query, pad.tables[layout.slots[input]]), live)
  }

  /** After the last node every state is right, and so is the result. */
  lemma PopulatedDone(plan: Plan, layout: Layout, at: Snapshot, live: seq<Bag>, reads_: seq<nat>, rows: seq<nat>)
    requires LayoutOk(plan, layout) && |live| == |plan.nodes| && PopulatedBy(plan, layout, at, live, reads_, rows)
    ensures forall id: nat | id < |plan.nodes| ::
              StateOk(plan.nodes[id].kind, at.supports[id], at.members[id], InputValues(plan, live, id))
    ensures |reads_| == |plan.nodes| && LastRead(plan, layout, Pad(at.tables, reads_), live)
    ensures Same(at.shown, live[plan.output])
  {
    forall id: nat | id < |plan.nodes|
      ensures StateOk(plan.nodes[id].kind, at.supports[id], at.members[id], InputValues(plan, live, id)) {
      StatesFilledAt(plan, at.supports, at.members, live, id);
    }
    LastReadsLeft(plan, layout, Pad(at.tables, reads_), live);
    if plan.sums.Some? {
      var q, input := plan.sums.value.query, plan.nodes[plan.output].inputs[0];
      var rows := at.tables[layout.slots[input]];
      Aggregate.MeasuredMeta(q, rows);
      Aggregate.MetaSame(q, Aggregate.Measured(q, rows), rows, live[input]);
    }
  }

  /** The latest node has its rows and its state, and its reads are to come. */
  ghost predicate WrittenBy(plan: Plan, layout: Layout, at: Snapshot, live: seq<Bag>, reads_: seq<nat>,
                            rows: seq<nat>)
    requires LayoutOk(plan, layout) && 0 < |live| <= |plan.nodes|
  {
    && |rows| == |at.supports| == |at.members| == |plan.nodes|
    && AllPositive(at.sources) && EvaluatesAll(plan, at.sources, live)
    && Reading(plan, layout, Pad(at.tables, reads_), live, 0)
    && Complete(layout.slots, Pad(at.tables, reads_), live, |live| - 1)
    && (forall n: nat | n < |live| && rows[n] == 0 :: live[n] == [])
    && StatesFilled(plan, at.supports, at.members, live)
    && PartlyShown(plan, at.shown, live[..|live| - 1])
  }

  lemma PopulatedWrite(plan: Plan, layout: Layout, start: Snapshot, at: Snapshot, live: seq<Bag>, reads_: seq<nat>,
                       rows: seq<nat>, out: Bag)
    requires LayoutOk(plan, layout) && |live| < |plan.nodes| && PopulatedBy(plan, layout, start, live, reads_, rows)
    requires at.sources == start.sources && at.shown == start.shown && Positive(out)
    requires layout.slots[|live|] < |start.tables| && at.tables == start.tables[layout.slots[|live|] := out]
    requires |at.supports| == |at.members| == |plan.nodes| && StatesFilled(plan, at.supports, at.members, live + [out])
    requires EvaluatesAll(plan, at.sources, live + [out])
    ensures WrittenBy(plan, layout, at, live + [out], reads_, rows[|live| := |out|])
  {
    NodeWrites(plan, layout, Pad(start.tables, reads_), live, out);
    assert (live + [out])[..|live|] == live;
  }

  /** `image` are the rows the node shows for the touched keys over `bags`. */
  ghost predicate IsImage(plan: Plan, id: nat, bags: seq<Bag>, keys: set<Row>, image: Bag)
    requires ValidPlan(plan) && id < |plan.nodes| && Sides(plan.nodes[id].kind, bags)
  {
    var kind := plan.nodes[id].kind;
    Same(image, EvalKeyed(kind, AllRestricted(kind, bags, keys), InputWidth(plan, id, 0), InputWidth(plan, id, 1)))
  }

  /** What an output group's fast path starts from. */
  lemma SumsReady(plan: Plan, sources: seq<Bag>, before: seq<Bag>, was: seq<Bag>, live: seq<Bag>, d: seq<Bag>,
                  parked: Bag)
    requires ValidPlan(plan) && OutputOk(plan) && plan.sums.Some? && Positive(parked)
    requires |was| == |plan.nodes| && |live| == plan.output
    requires EvaluatesAll(plan, before, was) && EvaluatesAll(plan, sources, live)
    requires AllDeltas(d, InputValues(plan, was, plan.output), InputValues(plan, live, plan.output))
    requires exists i :: 0 <= i < |d| && d[i] != []
    requires IsImage(plan, plan.output, InputValues(plan, was, plan.output), TouchedKeys(OutputKind(plan), d), parked)
    ensures
      var a, b := InputValues(plan, was, plan.output), InputValues(plan, live, plan.output);
      var sums := plan.sums.value;
      && |d| == |a| == |b| == 1 && d[0] != [] && Positive(a[0]) && Positive(b[0]) && IsDelta(d[0], a[0], b[0])
      && Aggregate.StoredOf(sums.query, ReadGroups(parked, plan.shown.value, sums.read), a[0],
                            Aggregate.Touched(sums.query, d[0]))
  {
    var a := InputValues(plan, was, plan.output);
    assert Evaluates(plan, before, was, plan.output);
    InputsPositive(plan, before, was, plan.output);
    InputsPositive(plan, sources, live, plan.output);
    SumsStored(OutputKind(plan), plan.shown.value, plan.sums.value, d, a[0], parked);
  }

  lemma SumsImaged(plan: Plan, live: seq<Bag>, d: seq<Bag>, stored: map<Row, Aggregate.Group>)
    requires ValidPlan(plan) && OutputOk(plan) && plan.sums.Some? && |live| == plan.output
    requires |d| == 1 && d[0] != [] && Positive(InputValues(plan, live, plan.output)[0])
    requires Aggregate.StoredOf(plan.sums.value.query, stored, InputValues(plan, live, plan.output)[0],
                                Aggregate.Touched(plan.sums.value.query, d[0]))
    ensures IsImage(plan, plan.output, InputValues(plan, live, plan.output), TouchedKeys(OutputKind(plan), d),
                    Weigh(ShowGroups(plan.sums.value, stored, KeysIn(OutputKind(plan), d[0])), 1))
  {
    SumsShown(OutputKind(plan), plan.shown.value, plan.sums.value, d, InputValues(plan, live, plan.output)[0], stored);
  }

  lemma OutputSingular(plan: Plan, sources: seq<Bag>, now: seq<Bag>)
    requires ValidPlan(plan) && OutputOk(plan) && AppliesInPlace(plan)
    requires plan.output < |now| <= |plan.nodes| && EvaluatesAll(plan, sources, now)
    ensures ApplyState.Singular(now[plan.output], plan.shown.value)
  {
    assert Evaluates(plan, sources, now, plan.output);
    var s := InputValues(plan, now, plan.output)[0];
    GroupSingular(OutputKind(plan), plan.shown.value, s);
    SingularSame(EvalGroup(OutputKind(plan), s), now[plan.output], plan.shown.value);
  }

  /** Applied copy by copy: no row is retracted more often than stored, and none added
      beyond the budget. */
  ghost predicate FitsCopies(entries: seq<Tables.Entry>, out: Bag) {
    ApplyState.Covered(entries, ApplyState.Retractions(out)) && ApplyState.WithinPeak(out)
  }

  /** The change of the output's value fits the stored rows and leads to the new value. */
  lemma OutputInPlace(plan: Plan, before: seq<Bag>, sources: seq<Bag>, was: seq<Bag>, now: seq<Bag>,
                      t: Tables.Table, out: Bag)
    requires ValidPlan(plan) && OutputOk(plan) && AppliesInPlace(plan)
    requires plan.output < |now| <= |plan.nodes| == |was|
    requires EvaluatesAll(plan, before, was) && EvaluatesAll(plan, sources, now)
    requires Tables.Valid(t, plan.shown.value) && Same(ApplyState.Stored(t.entries), was[plan.output])
    requires Consolidated(out) && IsDelta(out, was[plan.output], now[plan.output])
    ensures
      var group := plan.shown.value;
      && ApplyState.GroupDelta(out, group) && ApplyState.GroupsStored(t.entries, out, group)
      && Same(ApplyState.Stored(ApplyState.InPlace(t, out, group).entries), now[plan.output])
  {
    assert Evaluates(plan, before, was, plan.output) && Evaluates(plan, sources, now, plan.output);
    GroupAppliesInPlace(OutputKind(plan), plan.shown.value, t, was[plan.output], now[plan.output],
                        InputValues(plan, was, plan.output)[0], InputValues(plan, now, plan.output)[0], out);
  }

  /** The tables as the loop over the nodes keeps them: what a passed node wrote while
      it is still to be read, and the staged rows of the sources to come. */
  ghost predicate Progress(plan: Plan, layout: Layout, tables: seq<Bag>, rows: seq<nat>, outs: seq<Bag>,
                           batch: seq<Staged>)
    requires LayoutOk(plan, layout)
  {
    && |outs| <= |plan.nodes| && ScratchOk(plan, layout, tables, rows, |outs|)
    && (forall n: nat | n < |outs| && Held(plan, layout, |outs|, n) ::
         layout.slots[n] < |tables| && tables[layout.slots[n]] == outs[n])
    && (forall n: nat | |outs| <= n < |plan.nodes| && plan.nodes[n].kind.Input? ::
          Seeded(plan, layout, tables, batch, n))
  }

  /** Populated nodes have their state, the others none. */
  ghost predicate StatesFilled(plan: Plan, supports: seq<State>, members: seq<Tables.Table>, live: seq<Bag>)
    requires ValidPlan(plan) && |supports| == |members| == |plan.nodes| && |live| <= |plan.nodes|
  {
    && (forall n: nat | n < |live| :: FilledAt(plan, supports, members, live, n))
    && (forall n: nat | |live| <= n < |plan.nodes| :: supports[n] == map[] && members[n] == Tables.Table([], 0))
  }

  ghost predicate FilledAt(plan: Plan, supports: seq<State>, members: seq<Tables.Table>, live: seq<Bag>, n: nat)
    requires ValidPlan(plan) && |supports| == |members| == |plan.nodes| && n < |plan.nodes| && n <= |live|
  {
    StateOk(plan.nodes[n].kind, supports[n], members[n], InputValues(plan, live, n))
  }

  lemma StatesFilledAt(plan: Plan, supports: seq<State>, members: seq<Tables.Table>, live: seq<Bag>, n: nat)
    requires ValidPlan(plan) && |supports| == |members| == |plan.nodes| == |live| && n < |live|
    requires StatesFilled(plan, supports, members, live)
    ensures StateOk(plan.nodes[n].kind, supports[n], members[n], InputValues(plan, live, n))
  {
    assert FilledAt(plan, supports, members, live, n);
  }

  /** The node just filled joins those before it. */
  lemma StatesFill(plan: Plan, supports0: seq<State>, members0: seq<Tables.Table>, supports: seq<State>,
                   members: seq<Tables.Table>,
                   live: seq<Bag>, v: Bag)
    requires ValidPlan(plan) && |supports0| == |members0| == |supports| == |members| == |plan.nodes|
    requires |live| < |plan.nodes|
    requires StatesFilled(plan, supports0, members0, live)
    requires forall n | 0 <= n < |plan.nodes| && n != |live| :: supports[n] == supports0[n] && members[n] == members0[n]
    requires StateOk(plan.nodes[|live|].kind, supports[|live|], members[|live|], InputValues(plan, live, |live|))
    ensures StatesFilled(plan, supports, members, live + [v])
  {
    forall n: nat | n <= |live| ensures FilledAt(plan, supports, members, live + [v], n) {
      assert InputValues(plan, live + [v], n) == InputValues(plan, live, n);
      assert n < |live| ==> FilledAt(plan, supports0, members0, live, n);
    }
  }

  lemma SweepApart(plan: Plan, layout: Layout, id: nat, c: nat)
    requires LayoutOk(plan, layout) && id < |plan.nodes| && !plan.nodes[id].kind.Input?
    requires c < |plan.nodes| && layout.lastReads[c] == id && (c == id || Consumes(plan, id, c))
    ensures forall n: nat | Held(plan, layout, id + 1, n) :: layout.slots[n] != layout.slots[c]
  {
    StartsFree(plan, layout, id);
    if c != id {
      InputsHeld(plan, layout, id, c);
    }
    forall n: nat | Held(plan, layout, id + 1, n) ensures layout.slots[n] != layout.slots[c] {
      HeldNext(plan, layout, id, n);
      if n != id && c != id {
        HeldApart(plan, layout, id, n, c);
      }
    }
  }

  /** The first `side` inputs are swept. */
  ghost predicate Sweeping(plan: Plan, layout: Layout, before: seq<Bag>, tables: seq<Bag>, rows: seq<nat>, id: nat,
                           side: nat)
    requires LayoutOk(plan, layout) && id < |plan.nodes| && |before| == |rows| == |plan.nodes|
  {
    && |tables| == |before| && side <= |plan.nodes[id].inputs|
    && (forall n: nat | Held(plan, layout, id + 1, n) :: tables[layout.slots[n]] == before[layout.slots[n]])
    && (forall s: nat | s < |before| && before[s] == [] :: tables[s] == [])
    && (forall j: nat | j < side :: SweptChild(plan, layout, tables, rows, id, plan.nodes[id].inputs[j]))
  }

  ghost predicate SweptChild(plan: Plan, layout: Layout, tables: seq<Bag>, rows: seq<nat>, id: nat, c: nat)
    requires LayoutOk(plan, layout) && |tables| == |rows| == |plan.nodes|
  {
    c < |plan.nodes| && layout.slots[c] < |tables| && (layout.lastReads[c] == id && rows[c] != 0 ==>
      tables[layout.slots[c]] == [])
  }

  lemma SweepChild(plan: Plan, layout: Layout, before: seq<Bag>, tables: seq<Bag>, rows: seq<nat>, id: nat, side: nat)
    requires LayoutOk(plan, layout) && id < |plan.nodes| && !plan.nodes[id].kind.Input?
    requires |before| == |rows| == |plan.nodes|
    requires Sweeping(plan, layout, before, tables, rows, id, side) && side < |plan.nodes[id].inputs|
    ensures
      var c := plan.nodes[id].inputs[side];
      && layout.slots[c] < |tables|
      && (layout.lastReads[c] == id && rows[c] != 0 && c !in plan.nodes[id].inputs[..side] ==>
            Sweeping(plan, layout, before, tables[layout.slots[c] := []], rows, id, side + 1))
      && (!(layout.lastReads[c] == id && rows[c] != 0 && c !in plan.nodes[id].inputs[..side]) ==>
            Sweeping(plan, layout, before, tables, rows, id, side + 1))
  {
    var inputs := plan.nodes[id].inputs;
    var c := inputs[side];
    SlotInRange(plan, layout, c);
    if layout.lastReads[c] == id {
      SweepApart(plan, layout, id, c);
    }
    if c in inputs[..side] {
      var j :| 0 <= j < side && inputs[..side][j] == c;
      assert SweptChild(plan, layout, tables, rows, id, inputs[j]);
    }
    var after := tables[layout.slots[c] := []];
    forall j: nat | j < side ensures SweptChild(plan, layout, after, rows, id, inputs[j]) {
      assert SweptChild(plan, layout, tables, rows, id, inputs[j]);
    }
  }

  lemma SweepOwn(plan: Plan, layout: Layout, before: seq<Bag>, tables: seq<Bag>, rows: seq<nat>, id: nat)
    requires LayoutOk(plan, layout) && id < |plan.nodes| && !plan.nodes[id].kind.Input?
    requires |before| == |rows| == |plan.nodes|
    requires Sweeping(plan, layout, before, tables, rows, id, |plan.nodes[id].inputs|)
    ensures layout.slots[id] < |tables|
    ensures SweptAfter(plan, layout, before,
                       if layout.lastReads[id] == id && rows[id] != 0 then tables[layout.slots[id] := []] else tables,
                       rows, id)
  {
    SlotInRange(plan, layout, id);
    if layout.lastReads[id] == id {
      SweepApart(plan, layout, id, id);
    }
    forall c: nat | Consumes(plan, id, c) ensures SweptChild(plan, layout, tables, rows, id, c) {
      var j :| 0 <= j < |plan.nodes[id].inputs| && plan.nodes[id].inputs[j] == c;
    }
  }

  /** The loop reaches a node: its inputs' tables hold what they wrote, as many rows as
      counted, and that is the change of their values. */
  lemma InputsChanged(plan: Plan, layout: Layout, tables: seq<Bag>, rows: seq<nat>, was: seq<Bag>, live: seq<Bag>,
                      outs: seq<Bag>, batch: seq<Staged>)
    requires LayoutOk(plan, layout) && |live| < |plan.nodes| == |was| && AllChanged(outs, was, live)
    requires Progress(plan, layout, tables, rows, outs, batch)
    ensures
      var d := InputTables(plan, layout, tables, |live|);
      && d == InputValues(plan, outs, |live|)
      && AllDeltas(d, InputValues(plan, was, |live|), InputValues(plan, live, |live|))
      && forall i | 0 <= i < |d| :: |d[i]| == rows[plan.nodes[|live|].inputs[i]]
  {
    var d := InputTables(plan, layout, tables, |live|);
    forall i | 0 <= i < |d| ensures d[i] == outs[plan.nodes[|live|].inputs[i]]
      && IsDelta(d[i], InputValues(plan, was, |live|)[i], InputValues(plan, live, |live|)[i])
      && |d[i]| == rows[plan.nodes[|live|].inputs[i]]
    {
      InputsHeld(plan, layout, |live|, plan.nodes[|live|].inputs[i]);
    }
  }

  /** A source node passes: its table holds the staged rows. */
  lemma SourcePasses(plan: Plan, layout: Layout, tables: seq<Bag>, rows: seq<nat>, outs: seq<Bag>, batch: seq<Staged>)
    requires LayoutOk(plan, layout) && |outs| < |plan.nodes| && plan.nodes[|outs|].kind.Input?
    requires Progress(plan, layout, tables, rows, outs, batch)
    ensures Progress(plan, layout, tables, rows, outs + [SeedRows(batch, plan.nodes[|outs|].kind.source)], batch)
  {
    var id := |outs|;
    PassInput(plan, layout, tables, rows, id);
    var outs' := outs + [SeedRows(batch, plan.nodes[id].kind.source)];
    assert Seeded(plan, layout, tables, batch, id);
    forall n: nat | n < id + 1 && Held(plan, layout, id + 1, n)
      ensures layout.slots[n] < |tables| && tables[layout.slots[n]] == outs'[n]
    {
      if n < id {
        assert Held(plan, layout, id, n);
      }
    }
    forall n: nat | id + 1 <= n < |plan.nodes| && plan.nodes[n].kind.Input?
      ensures Seeded(plan, layout, tables, batch, n) {
    }
  }

  lemma SourceChange(plan: Plan, before: seq<Bag>, sources: seq<Bag>, was: seq<Bag>, live: seq<Bag>,
                     batch: seq<Staged>, v: Bag)
    requires ValidPlan(plan) && |live| < |plan.nodes| == |was| && plan.nodes[|live|].kind.Input?
    requires EvaluatesAll(plan, before, was) && EvaluatesAll(plan, sources, live + [v])
    requires |before| == |sources|
    requires forall s | 0 <= s < |sources| :: IsDelta(SeedRows(batch, s), before[s], sources[s])
    ensures IsDelta(SeedRows(batch, plan.nodes[|live|].kind.source), was[|live|], v)
  {
    assert Evaluates(plan, before, was, |live|);
    assert Evaluates(plan, sources, live + [v], |live|);
  }

  /** Any other node passes: its table holds what it wrote, and its sweeps left what
      later nodes read. */
  lemma NodePasses(plan: Plan, layout: Layout, tables: seq<Bag>, rows: seq<nat>, outs: seq<Bag>, batch: seq<Staged>,
                   out: Bag, after: seq<Bag>)
    requires LayoutOk(plan, layout) && |outs| < |plan.nodes| && !plan.nodes[|outs|].kind.Input?
    requires Progress(plan, layout, tables, rows, outs, batch) && layout.slots[|outs|] < |tables|
    requires SweptAfter(plan, layout, tables[layout.slots[|outs|] := out], after, rows[|outs| := |out|], |outs|)
    ensures Progress(plan, layout, after, rows[|outs| := |out|], outs + [out], batch)
  {
    var id := |outs|;
    PassNode(plan, layout, tables, rows, id, out, after);
    StartsFree(plan, layout, id);
    forall n: nat | n < id + 1 && Held(plan, layout, id + 1, n)
      ensures layout.slots[n] < |after| && after[layout.slots[n]] == (outs + [out])[n]
    {
      SlotInRange(plan, layout, n);
      HeldNext(plan, layout, id, n);
    }
    forall n: nat | id + 1 <= n < |plan.nodes| && plan.nodes[n].kind.Input?
      ensures Seeded(plan, layout, after, batch, n) {
      SourceReadLater(plan, layout, n);
      SlotInRange(plan, layout, n);
      assert Held(plan, layout, id + 1, n) && Held(plan, layout, id, n);
      assert Seeded(plan, layout, tables, batch, n);
    }
  }

  /** An input counts as touched exactly when it wrote a row. */
  lemma TouchedInputs(plan: Plan, d: seq<Bag>, touched: seq<bool>, rows: seq<nat>, id: nat)
    requires id < |plan.nodes| && |d| == |touched| == |plan.nodes[id].inputs|
    requires forall i | 0 <= i < |d| :: plan.nodes[id].inputs[i] < |rows| && |d[i]| == rows[plan.nodes[id].inputs[i]]
    requires forall i | 0 <= i < |d| :: touched[i] <==> rows[plan.nodes[id].inputs[i]] != 0
    requires exists i :: 0 <= i < |d| && rows[plan.nodes[id].inputs[i]] != 0
    ensures forall i | 0 <= i < |d| :: !touched[i] <==> d[i] == []
    ensures exists i :: 0 <= i < |d| && d[i] != []
  {
    var i :| 0 <= i < |d| && rows[plan.nodes[id].inputs[i]] != 0;
    assert d[i] != [];
  }

  lemma ChangeOfNode(plan: Plan, sources: seq<Bag>, was: seq<Bag>, live: seq<Bag>, out: Bag, v: Bag)
    requires ValidPlan(plan) && |live| < |plan.nodes| == |was|
    requires EvaluatesAll(plan, sources, live + [v]) && IsChange(plan, sources, was, live, |live|, out)
    ensures IsDelta(out, was[|live|], v)
  {
    assert Evaluates(plan, sources, live + [v], |live|);
  }

  ghost predicate StatesOk(plan: Plan, supports: seq<State>, members: seq<Tables.Table>, was: seq<Bag>, live: seq<Bag>)
    requires ValidPlan(plan) && |supports| == |members| == |was| == |plan.nodes|
  {
    forall n: nat | n < |plan.nodes| ::
      StateOk(plan.nodes[n].kind, supports[n], members[n], InputValues(plan, if n < |live| then live else was, n))
  }

  /** Node states stay right when the loop passes a node whose state is. */
  lemma StatesPass(plan: Plan, supports0: seq<State>, members0: seq<Tables.Table>, supports: seq<State>,
                   members: seq<Tables.Table>,
                   was: seq<Bag>, live: seq<Bag>, v: Bag)
    requires ValidPlan(plan) && |supports0| == |members0| == |supports| == |members| == |was| == |plan.nodes|
    requires |live| < |plan.nodes|
    requires StatesOk(plan, supports0, members0, was, live)
    requires forall n | 0 <= n < |plan.nodes| && n != |live| :: supports[n] == supports0[n] && members[n] == members0[n]
    requires StateOk(plan.nodes[|live|].kind, supports[|live|], members[|live|], InputValues(plan, live, |live|))
    ensures StatesOk(plan, supports, members, was, live + [v])
  {
    forall n: nat | n < |plan.nodes|
      ensures StateOk(plan.nodes[n].kind, supports[n], members[n],
                      InputValues(plan, if n < |live + [v]| then live + [v] else was, n))
    {
      if n < |live| {
        assert InputValues(plan, live + [v], n) == InputValues(plan, live, n);
      } else if n == |live| {
        SameInputs(plan, live, v, n);
      }
    }
  }

  lemma SourceIsNotOutput(plan: Plan, id: nat)
    requires ValidPlan(plan) && id < |plan.nodes| && plan.nodes[id].kind.Input?
    ensures id != plan.output
  {
  }

  /** A skipped node sweeps nothing, and nothing needs sweeping. */
  lemma SkippedSweep(plan: Plan, layout: Layout, tables: seq<Bag>, rows: seq<nat>, id: nat)
    requires LayoutOk(plan, layout) && id < |plan.nodes| && !plan.nodes[id].kind.Input?
    requires ScratchOk(plan, layout, tables, rows, id)
    requires forall i | 0 <= i < |plan.nodes[id].inputs| :: rows[plan.nodes[id].inputs[i]] == 0
    ensures layout.slots[id] < |tables| && tables[layout.slots[id] := []] == tables && rows[id := 0] == rows
    ensures SweptAfter(plan, layout, tables, tables, rows, id)
  {
    StartsFree(plan, layout, id);
    SlotInRange(plan, layout, id);
  }

  lemma MemberRows(t: Tables.Table)
    requires Tables.Valid(t, Itself)
    ensures Positive(Weigh(Tables.EntryRows(t.entries), 1))
    ensures forall r :: Net(Weigh(Tables.EntryRows(t.entries), 1), r) == Indicator(r in Tables.Keys(t, Itself))
  {
    UniqueRows(t.entries, Itself);
    forall r ensures Net(Weigh(Tables.EntryRows(t.entries), 1), r) == Indicator(r in Tables.Keys(t, Itself)) {
      NetWeigh(Tables.EntryRows(t.entries), 1, r);
      MemberCount(t, r);
    }
  }
}

/** Which node's delta a shared scratch table holds while a batch is drained. */
module Scratch {
  import opened Rows
  import opened Bags
  import opened Plans
  import opened Slots

  /** A table layout: its slots and the position that last reads each node. */
  datatype Layout = Layout(slots: seq<nat>, lastReads: seq<nat>)

  ghost predicate LayoutOk(plan: Plan, layout: Layout) {
    && ValidPlan(plan) && LastReadsOk(plan, layout.lastReads)
    && |layout.slots| == |plan.nodes| && PrefixOk(plan, layout.lastReads, layout.slots)
  }

  /** What a node's inputs left in their scratch tables. */
  function InputTables(plan: Plan, layout: Layout, tables: seq<Bag>, id: nat): (d: seq<Bag>)
    requires LayoutOk(plan, layout) && |tables| == |plan.nodes| && id < |plan.nodes|
    ensures |d| == |plan.nodes[id].inputs|
    ensures forall i | 0 <= i < |d| :: d[i] == tables[layout.slots[plan.nodes[id].inputs[i]]]
  {
    var inputs := plan.nodes[id].inputs;
    seq(|inputs|, i requires 0 <= i < |inputs| => tables[layout.slots[inputs[i]]])
  }

  /** When node `id` starts, `n` has written its delta and somebody still reads it. */
  ghost predicate Held(plan: Plan, layout: Layout, id: nat, n: nat)
    requires |layout.lastReads| == |plan.nodes|
  {
    n < |plan.nodes| && (n < id || plan.nodes[n].kind.Input?) && id <= layout.lastReads[n]
  }

  /** Every held delta is in its table, `rows` long; the other tables are empty. */
  ghost predicate ScratchOk(plan: Plan, layout: Layout, tables: seq<Bag>, rows: seq<nat>, id: nat)
    requires LayoutOk(plan, layout)
  {
    && |tables| == |rows| == |plan.nodes|
    && (forall n: nat | Held(plan, layout, id, n) :: |tables[layout.slots[n]]| == rows[n])
    && (forall s: nat | s < |tables| && Free(plan, layout, id, s) :: tables[s] == [])
    && (forall n: nat | id <= n < |rows| && !plan.nodes[n].kind.Input? :: rows[n] == 0)
  }

  ghost predicate Free(plan: Plan, layout: Layout, id: nat, s: nat)
    requires LayoutOk(plan, layout)
  {
    forall n: nat | Held(plan, layout, id, n) :: layout.slots[n] != s
  }

  lemma SlotInRange(plan: Plan, layout: Layout, n: nat)
    requires LayoutOk(plan, layout) && n < |plan.nodes|
    ensures layout.slots[n] < |plan.nodes|
  {
  }

  /** Nodes that hold deltas at the same time have different tables. */
  lemma HeldApart(plan: Plan, layout: Layout, id: nat, n: nat, m: nat)
    requires LayoutOk(plan, layout) && n != m && Held(plan, layout, id, n) && Held(plan, layout, id, m)
    ensures layout.slots[n] != layout.slots[m]
  {
    OwnersApart(plan, layout.lastReads, layout.slots, n, m);
  }

  /** A node that starts finds its table free. */
  lemma StartsFree(plan: Plan, layout: Layout, id: nat)
    requires LayoutOk(plan, layout) && id < |plan.nodes| && !plan.nodes[id].kind.Input?
    ensures Free(plan, layout, id, layout.slots[id])
  {
    assert IsLastRead(plan, id, layout.lastReads[id]);
    forall n: nat | Held(plan, layout, id, n) ensures layout.slots[n] != layout.slots[id] {
      OwnersApart(plan, layout.lastReads, layout.slots, id, n);
    }
  }

  /** A node's inputs are held when it starts. */
  lemma InputsHeld(plan: Plan, layout: Layout, id: nat, c: nat)
    requires LayoutOk(plan, layout) && Consumes(plan, id, c)
    ensures c < id && Held(plan, layout, id, c)
  {
    ConsumerLater(plan, id, c);
    assert IsLastRead(plan, c, layout.lastReads[c]);
  }

  /** Whoever is last read by node `id` is one of its inputs, or the node itself. */
  lemma LastReader(plan: Plan, layout: Layout, id: nat, n: nat)
    requires LayoutOk(plan, layout) && id < |plan.nodes| && n < |plan.nodes| && layout.lastReads[n] == id
    requires n < id || plan.nodes[n].kind.Input?
    ensures Consumes(plan, id, n)
  {
    assert IsLastRead(plan, n, id);
    if plan.nodes[n].kind.Input? {
      SourceReadLater(plan, layout, n);
    }
  }

  lemma SourceReadLater(plan: Plan, layout: Layout, n: nat)
    requires LayoutOk(plan, layout) && n < |plan.nodes| && plan.nodes[n].kind.Input?
    ensures n < layout.lastReads[n]
  {
    assert IsLastRead(plan, n, layout.lastReads[n]);
    if !LongLived(plan, n) {
      var c :| 0 <= c < |plan.nodes| && Consumes(plan, c, n);
      ConsumerLater(plan, c, n);
    }
  }

  /** Nodes held by the next node were held before, or just wrote. */
  lemma HeldNext(plan: Plan, layout: Layout, id: nat, n: nat)
    requires LayoutOk(plan, layout) && id < |plan.nodes|
    ensures Held(plan, layout, id + 1, n) ==> Held(plan, layout, id, n) || n == id
    ensures Held(plan, layout, id, n) && !Held(plan, layout, id + 1, n) ==>
              layout.lastReads[n] == id && Consumes(plan, id, n)
  {
    if Held(plan, layout, id, n) && !Held(plan, layout, id + 1, n) {
      LastReader(plan, layout, id, n);
    }
  }

  /** Passing over a source node changes nothing. */
  lemma PassInput(plan: Plan, layout: Layout, tables: seq<Bag>, rows: seq<nat>, id: nat)
    requires LayoutOk(plan, layout) && id < |plan.nodes| && plan.nodes[id].kind.Input?
    requires ScratchOk(plan, layout, tables, rows, id)
    ensures ScratchOk(plan, layout, tables, rows, id + 1)
    ensures forall n: nat :: Held(plan, layout, id + 1, n) <==> Held(plan, layout, id, n)
  {
    forall n: nat ensures Held(plan, layout, id + 1, n) <==> Held(plan, layout, id, n) {
      if Held(plan, layout, id, n) && !Held(plan, layout, id + 1, n) {
        LastReader(plan, layout, id, n);
      }
    }
    forall s: nat | s < |tables| && Free(plan, layout, id + 1, s) ensures tables[s] == [] {
      assert Free(plan, layout, id, s);
    }
  }

  /** The tables after node `id` wrote `out` and the deltas it read last were swept. */
  ghost predicate SweptAfter(plan: Plan, layout: Layout, before: seq<Bag>, after: seq<Bag>, rows: seq<nat>, id: nat)
    requires LayoutOk(plan, layout) && id < |plan.nodes| && |before| == |rows| == |plan.nodes|
  {
    && |after| == |before|
    && (forall n: nat | Held(plan, layout, id + 1, n) :: after[layout.slots[n]] == before[layout.slots[n]])
    && (forall s: nat | s < |before| && before[s] == [] :: after[s] == [])
    && (forall c: nat | Consumes(plan, id, c) && layout.lastReads[c] == id && rows[c] != 0 ::
         after[layout.slots[c]] == [])
    && (layout.lastReads[id] == id && rows[id] != 0 ==> after[layout.slots[id]] == [])
  }

  lemma PassNode(plan: Plan, layout: Layout, tables: seq<Bag>, rows: seq<nat>, id: nat, out: Bag, after: seq<Bag>)
    requires LayoutOk(plan, layout) && id < |plan.nodes| && !plan.nodes[id].kind.Input?
    requires ScratchOk(plan, layout, tables, rows, id)
    requires SweptAfter(plan, layout, tables[layout.slots[id] := out], after, rows[id := |out|], id)
    ensures ScratchOk(plan, layout, after, rows[id := |out|], id + 1)
  {
    var wrote := tables[layout.slots[id] := out];
    StartsFree(plan, layout, id);
    forall n: nat | Held(plan, layout, id + 1, n) ensures |after[layout.slots[n]]| == rows[id := |out|][n] {
      HeldNext(plan, layout, id, n);
      SlotInRange(plan, layout, n);
    }
    forall s: nat | s < |tables| && Free(plan, layout, id + 1, s) ensures after[s] == [] {
      if s == layout.slots[id] {
        assert IsLastRead(plan, id, layout.lastReads[id]);
        assert !Held(plan, layout, id + 1, id);
      } else if n: nat :| Held(plan, layout, id, n) && layout.slots[n] == s {
        HeldNext(plan, layout, id, n);
        assert |tables[layout.slots[n]]| == rows[n];
      } else {
        assert Free(plan, layout, id, s);
      }
    }
  }
}

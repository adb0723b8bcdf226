/** Initial population over the shared scratch tables: how many reads of a
    node's rows are still to come, and when its table is cleared. */
module Population {
  import opened Rows
  import opened Bags
  import opened Plans
  import opened Locality
  import opened Meaning
  import opened Slots
  import opened Scratch

  /** The occurrences among a node's inputs that its population reads; a map and
      UNION ALL read only their first input. */
  function ReadInputs(plan: Plan, c: nat): seq<nat>
    requires ValidPlan(plan) && c < |plan.nodes|
  {
    match plan.nodes[c].kind
    case Map(_, _, _) => plan.nodes[c].inputs[..1]
    case Set(All) => plan.nodes[c].inputs[..1]
    case _ => plan.nodes[c].inputs
  }

  function Occurrences(s: seq<nat>, n: nat): nat {
    if s == [] then 0 else (if s[0] == n then 1 else 0) + Occurrences(s[1..], n)
  }

  /** Reads of `n` by the nodes from `id` on. */
  function ReadsFrom(plan: Plan, id: nat, n: nat): nat
    requires ValidPlan(plan)
    decreases |plan.nodes| - id
  {
    if id >= |plan.nodes| then 0 else Occurrences(ReadInputs(plan, id), n) + ReadsFrom(plan, id + 1, n)
  }

  /** The result is written once from the output; COUNT/SUM metadata reads the
      aggregate's input once more at the end. */
  function ExtraReads(plan: Plan, id: nat, n: nat): nat
    requires ValidPlan(plan)
  {
    (if n == plan.output && id <= plan.output then 1 else 0)
    + (if plan.sums.Some? && n == plan.nodes[plan.output].inputs[0] then 1 else 0)
  }

  /** What the counter of `n` must be when node `id` starts. */
  function Remaining(plan: Plan, id: nat, n: nat): nat
    requires ValidPlan(plan)
  {
    ReadsFrom(plan, id, n) + ExtraReads(plan, id, n)
  }

  lemma {:induction false} OccurrencesAppend(s: seq<nat>, t: seq<nat>, n: nat)
    ensures Occurrences(s + t, n) == Occurrences(s, n) + Occurrences(t, n)
  {
    if s == [] {
      assert s + t == t;
    } else {
      assert (s + t)[1..] == s[1..] + t;
      OccurrencesAppend(s[1..], t, n);
    }
  }

  lemma {:induction false} OccursIn(s: seq<nat>, n: nat)
    ensures Occurrences(s, n) > 0 <==> n in s
  {
    if s != [] {
      OccursIn(s[1..], n);
      assert s == [s[0]] + s[1..];
    }
  }

  lemma ReadIsConsumed(plan: Plan, c: nat, n: nat)
    requires ValidPlan(plan) && c < |plan.nodes| && n in ReadInputs(plan, c)
    ensures Consumes(plan, c, n) && n < c
  {
    var i :| 0 <= i < |ReadInputs(plan, c)| && ReadInputs(plan, c)[i] == n;
    assert plan.nodes[c].inputs[i] == n;
  }

  /** A read still to come means a last read still to come. */
  lemma {:induction false} ReadsAreLive(plan: Plan, layout: Layout, id: nat, n: nat)
    requires LayoutOk(plan, layout) && n < |plan.nodes|
    requires ReadsFrom(plan, id, n) > 0
    ensures id <= layout.lastReads[n]
    decreases |plan.nodes| - id
  {
    if Occurrences(ReadInputs(plan, id), n) > 0 {
      OccursIn(ReadInputs(plan, id), n);
      ReadIsConsumed(plan, id, n);
      assert IsLastRead(plan, n, layout.lastReads[n]);
    } else {
      ReadsAreLive(plan, layout, id + 1, n);
    }
  }

  lemma RemainingIsLive(plan: Plan, layout: Layout, id: nat, n: nat)
    requires LayoutOk(plan, layout) && n < |plan.nodes| && id <= |plan.nodes|
    requires Remaining(plan, id, n) > 0
    ensures id <= layout.lastReads[n]
  {
    if ReadsFrom(plan, id, n) > 0 {
      ReadsAreLive(plan, layout, id, n);
    } else {
      assert IsLastRead(plan, n, layout.lastReads[n]);
    }
  }

  /** When node `id` starts to write, no table of its name is still read. */
  lemma WriterFindsEmpty(plan: Plan, layout: Layout, id: nat, n: nat)
    requires LayoutOk(plan, layout) && n < id < |plan.nodes| && Remaining(plan, id, n) > 0
    ensures layout.slots[n] != layout.slots[id]
  {
    RemainingIsLive(plan, layout, id, n);
    assert IsLastRead(plan, id, layout.lastReads[id]);
    OwnersApart(plan, layout.lastReads, layout.slots, id, n);
  }

  /** Nodes with reads to come have different tables. */
  lemma ReadersApart(plan: Plan, layout: Layout, id: nat, n: nat, m: nat)
    requires LayoutOk(plan, layout) && n < id <= |plan.nodes| && m < id && n != m
    requires Remaining(plan, id, n) > 0 && Remaining(plan, id, m) > 0
    ensures layout.slots[n] != layout.slots[m]
  {
    RemainingIsLive(plan, layout, id, n);
    RemainingIsLive(plan, layout, id, m);
    OwnersApart(plan, layout.lastReads, layout.slots, n, m);
  }

  // ------------------------------------------------------------------ what is kept

  /** The scratch tables and the counters of reads to come. */
  datatype Pad = Pad(tables: seq<Bag>, reads_: seq<nat>)

  /** `n` has rows of its own, and they are complete in its table. */
  ghost predicate Complete(slots: seq<nat>, pad: Pad, live: seq<Bag>, n: nat)
    requires n < |live|
  {
    n < |slots| && slots[n] < |pad.tables| && Positive(live[n]) && pad.tables[slots[n]] == live[n]
  }

  /** No node before `id` with reads to come uses table `s`. */
  ghost predicate Unneeded(slots: seq<nat>, reads_: seq<nat>, id: nat, s: nat)
    requires |slots| == |reads_|
  {
    forall n: nat | n < id && n < |reads_| && reads_[n] > 0 :: slots[n] != s
  }

  /** Rows of every populated node with reads to come are complete in their table;
      tables nobody will read are empty. */
  ghost predicate Kept(slots: seq<nat>, pad: Pad, live: seq<Bag>) {
    && |pad.tables| == |pad.reads_| == |slots| && |live| <= |slots|
    && (forall n: nat | n < |live| && pad.reads_[n] > 0 :: Complete(slots, pad, live, n))
    && (forall s: nat | s < |pad.tables| && Unneeded(slots, pad.reads_, |live|, s) :: pad.tables[s] == [])
  }

  /** The same while the latest node reads its inputs: its own table is full. */
  ghost predicate WrittenKept(slots: seq<nat>, pad: Pad, live: seq<Bag>) {
    && |pad.tables| == |pad.reads_| == |slots| && 0 < |live| <= |slots|
    && (forall n: nat | n < |live| && (n == |live| - 1 || pad.reads_[n] > 0) :: Complete(slots, pad, live, n))
    && (forall s: nat | s < |pad.tables| && s != slots[|live| - 1] && Unneeded(slots, pad.reads_, |live|, s) ::
         pad.tables[s] == [])
  }

  /** Nobody who still needs its table shares that of `c`. */
  ghost predicate Alone(slots: seq<nat>, reads_: seq<nat>, id: nat, c: nat)
    requires c < |slots| == |reads_|
  {
    slots[c] < |slots| && forall n: nat | n <= id && n < |reads_| && n != c && (n == id || reads_[n] > 0) ::
      slots[n] != slots[c]
  }

  function Clear(pad: Pad, s: nat): Pad
    requires s < |pad.tables|
  {
    pad.(tables := pad.tables[s := []])
  }

  function WithReads(pad: Pad, c: nat, k: nat): Pad
    requires c < |pad.reads_|
  {
    pad.(reads_ := pad.reads_[c := k])
  }

  /** One read of `c`; the last one clears its table. */
  function ReadOnce(slots: seq<nat>, pad: Pad, c: nat): Pad
    requires c < |pad.reads_| == |slots| && pad.reads_[c] > 0 && slots[c] < |pad.tables|
  {
    var next := WithReads(pad, c, pad.reads_[c] - 1);
    if pad.reads_[c] == 1 then Clear(next, slots[c]) else next
  }

  lemma UnneededBefore(slots: seq<nat>, pad: Pad, c: nat, k: nat, id: nat, s: nat)
    requires |slots| == |pad.reads_| && c < |slots| && (slots[c] != s || k > 0)
    requires Unneeded(slots, pad.reads_[c := k], id, s) && (c < id || pad.reads_[c] == 0)
    ensures Unneeded(slots, pad.reads_, id, s)
  {
    forall n: nat | n < id && n < |slots| && pad.reads_[n] > 0 ensures slots[n] != s {
      if n != c { assert pad.reads_[c := k][n] > 0; }
    }
  }

  /** A node writes into a table that nobody reads. */
  lemma WriteKeeps(slots: seq<nat>, pad: Pad, live: seq<Bag>, out: Bag)
    requires |live| < |slots| == |pad.reads_| && Kept(slots, pad, live) && Alone(slots, pad.reads_, |live|, |live|)
    requires Positive(out)
    ensures pad.tables[slots[|live|]] == []
    ensures WrittenKept(slots, pad.(tables := pad.tables[slots[|live|] := out]), live + [out])
  {
    var id := |live|;
    assert Unneeded(slots, pad.reads_, id, slots[id]);
    var after := pad.(tables := pad.tables[slots[id] := out]);
    forall n: nat | n <= id && (n == id || pad.reads_[n] > 0) ensures Complete(slots, after, live + [out], n) {
      if n < id {
        assert Complete(slots, pad, live, n);
      }
    }
    forall s: nat | s < |after.tables| && s != slots[id] && Unneeded(slots, pad.reads_, id + 1, s)
      ensures after.tables[s] == [] {
      assert Unneeded(slots, pad.reads_, id, s);
    }
  }

  /** A read clears no table that is still to be read. */
  lemma ReadKeeps(slots: seq<nat>, pad: Pad, live: seq<Bag>, c: nat)
    requires WrittenKept(slots, pad, live) && c < |live| - 1 && pad.reads_[c] > 0
    requires Alone(slots, pad.reads_, |live| - 1, c)
    ensures WrittenKept(slots, ReadOnce(slots, pad, c), live)
    ensures slots[|live| - 1] < |pad.tables|
    ensures ReadOnce(slots, pad, c).tables[slots[|live| - 1]] == pad.tables[slots[|live| - 1]]
  {
    var id := |live| - 1;
    assert Complete(slots, pad, live, id);
    var after := ReadOnce(slots, pad, c);
    forall n: nat | n <= id && (n == id || after.reads_[n] > 0) ensures Complete(slots, after, live, n) {
      assert Complete(slots, pad, live, n);
    }
    forall s: nat | s < |after.tables| && s != slots[id] && Unneeded(slots, after.reads_, |live|, s)
      ensures after.tables[s] == [] {
      if s != slots[c] || pad.reads_[c] > 1 {
        UnneededBefore(slots, pad, c, pad.reads_[c] - 1, |live|, s);
      }
    }
  }

  /** The node's own table stays exactly when somebody will read it. */
  lemma OwnKeeps(slots: seq<nat>, pad: Pad, live: seq<Bag>, own: nat)
    requires WrittenKept(slots, pad, live) && Alone(slots, pad.reads_, |live| - 1, |live| - 1)
    ensures
      var id := |live| - 1;
      Kept(slots, if own == 0 then Clear(WithReads(pad, id, 0), slots[id]) else WithReads(pad, id, own), live)
  {
    var id := |live| - 1;
    var after := if own == 0 then Clear(WithReads(pad, id, 0), slots[id]) else WithReads(pad, id, own);
    forall n: nat | n <= id && after.reads_[n] > 0 ensures Complete(slots, after, live, n) {
      assert Complete(slots, pad, live, n);
    }
    forall s: nat | s < |after.tables| && Unneeded(slots, after.reads_, |live|, s) ensures after.tables[s] == [] {
      if s != slots[id] {
        UnneededBefore(slots, pad, id, own, |live|, s);
      }
    }
  }

  // ------------------------------------------------------------------ the counters

  /** Every counter is what it must be when node `id` starts. */
  ghost predicate Counted(plan: Plan, reads_: seq<nat>, id: nat)
    requires ValidPlan(plan)
  {
    reads_ == RemainingAll(plan, id)
  }

  function RemainingAll(plan: Plan, id: nat): seq<nat>
    requires ValidPlan(plan)
  {
    seq(|plan.nodes|, n requires 0 <= n < |plan.nodes| => Remaining(plan, id, n))
  }

  /** Reads of `n` to come once node `id` has done its first `j` reads. */
  function Pending(plan: Plan, id: nat, j: nat, n: nat): nat
    requires ValidPlan(plan) && id < |plan.nodes| && j <= |ReadInputs(plan, id)|
  {
    Occurrences(ReadInputs(plan, id)[j..], n) + ReadsFrom(plan, id + 1, n) + ExtraReads(plan, id, n)
  }

  function PendingAll(plan: Plan, id: nat, j: nat): seq<nat>
    requires ValidPlan(plan) && id < |plan.nodes| && j <= |ReadInputs(plan, id)|
  {
    seq(|plan.nodes|, n requires 0 <= n < |plan.nodes| => Pending(plan, id, j, n))
  }

  lemma PendingStart(plan: Plan, id: nat)
    requires ValidPlan(plan) && id < |plan.nodes|
    ensures PendingAll(plan, id, 0) == RemainingAll(plan, id)
  {
    assert ReadInputs(plan, id)[0..] == ReadInputs(plan, id);
  }

  /** The next read has a positive counter, and one less remains after it. */
  lemma PendingStep(plan: Plan, id: nat, j: nat)
    requires ValidPlan(plan) && id < |plan.nodes| && j < |ReadInputs(plan, id)|
    ensures
      var c, reads_ := ReadInputs(plan, id)[j], PendingAll(plan, id, j);
      c < id && reads_[c] > 0 && PendingAll(plan, id, j + 1) == reads_[c := reads_[c] - 1]
  {
    var inputs := ReadInputs(plan, id);
    var c := inputs[j];
    ReadIsConsumed(plan, id, c);
    assert inputs[j..] == [c] + inputs[j + 1..];
    forall n: nat ensures Pending(plan, id, j, n) == Pending(plan, id, j + 1, n) + if n == c then 1 else 0 {
      OccurrencesAppend([c], inputs[j + 1..], n);
      assert [c][1..] == [];
    }
  }

  lemma PendingAtMost(plan: Plan, id: nat, j: nat, n: nat)
    requires ValidPlan(plan) && id < |plan.nodes| && j <= |ReadInputs(plan, id)| && n < |plan.nodes|
    ensures Pending(plan, id, j, n) <= Remaining(plan, id, n)
  {
    var inputs := ReadInputs(plan, id);
    OccurrencesAppend(inputs[..j], inputs[j..], n);
    assert inputs[..j] + inputs[j..] == inputs;
  }

  /** After the node's own turn every counter is right for the next node. */
  lemma PendingDone(plan: Plan, id: nat)
    requires ValidPlan(plan) && id < |plan.nodes|
    ensures
      var reads_ := PendingAll(plan, id, |ReadInputs(plan, id)|);
      && (id == plan.output ==> reads_[id] > 0)
      && RemainingAll(plan, id + 1) == if id == plan.output then reads_[id := reads_[id] - 1] else reads_
  {
    assert ReadInputs(plan, id)[|ReadInputs(plan, id)|..] == [];
  }

  /** Tables with reads to come are apart, and apart from the writer's. */
  lemma ReadersAlone(plan: Plan, layout: Layout, id: nat, j: nat, c: nat)
    requires LayoutOk(plan, layout) && id < |plan.nodes| && j <= |ReadInputs(plan, id)|
    requires c == id || (c < id && Pending(plan, id, j, c) > 0)
    ensures Alone(layout.slots, PendingAll(plan, id, j), id, c)
  {
    SlotInRange(plan, layout, c);
    PendingAtMost(plan, id, j, c);
    forall n: nat | n <= id && n != c && (n == id || PendingAll(plan, id, j)[n] > 0)
      ensures layout.slots[n] != layout.slots[c] {
      PendingAtMost(plan, id, j, n);
      if n == id {
        WriterFindsEmpty(plan, layout, id, c);
      } else if c == id {
        WriterFindsEmpty(plan, layout, id, n);
      } else {
        ReadersApart(plan, layout, id, n, c);
      }
    }
  }

  // --------------------------------------------------------------------- one node

  /** Node `id` has written and done its first `j` reads. */
  ghost predicate Reading(plan: Plan, layout: Layout, pad: Pad, live: seq<Bag>, j: nat)
    requires ValidPlan(plan) && 0 < |live| <= |plan.nodes| && j <= |ReadInputs(plan, |live| - 1)|
  {
    pad.reads_ == PendingAll(plan, |live| - 1, j) && WrittenKept(layout.slots, pad, live)
  }

  lemma NodeWrites(plan: Plan, layout: Layout, pad: Pad, live: seq<Bag>, out: Bag)
    requires LayoutOk(plan, layout) && |live| < |plan.nodes| && Positive(out)
    requires Kept(layout.slots, pad, live) && Counted(plan, pad.reads_, |live|)
    ensures layout.slots[|live|] < |pad.tables| && pad.tables[layout.slots[|live|]] == []
    ensures Reading(plan, layout, pad.(tables := pad.tables[layout.slots[|live|] := out]), live + [out], 0)
  {
    PendingStart(plan, |live|);
    ReadersAlone(plan, layout, |live|, 0, |live|);
    WriteKeeps(layout.slots, pad, live, out);
  }

  /** A read finds a positive counter, leaves what later nodes read, and leaves the
      node's own rows. */
  lemma NodeReads(plan: Plan, layout: Layout, pad: Pad, live: seq<Bag>, j: nat)
    requires LayoutOk(plan, layout) && 0 < |live| <= |plan.nodes| && j < |ReadInputs(plan, |live| - 1)|
    requires Reading(plan, layout, pad, live, j)
    ensures
      var c := ReadInputs(plan, |live| - 1)[j];
      && c < |pad.reads_| && pad.reads_[c] > 0 && layout.slots[c] < |pad.tables|
      && Reading(plan, layout, ReadOnce(layout.slots, pad, c), live, j + 1)
      && ReadOnce(layout.slots, pad, c).tables[layout.slots[|live| - 1]] == pad.tables[layout.slots[|live| - 1]]
  {
    var c := ReadInputs(plan, |live| - 1)[j];
    ReadCounts(plan, layout, pad, |live| - 1, j);
    ReadKeeps(layout.slots, pad, live, c);
  }

  lemma ReadCounts(plan: Plan, layout: Layout, pad: Pad, id: nat, j: nat)
    requires LayoutOk(plan, layout) && id < |plan.nodes| && j < |ReadInputs(plan, id)|
    requires pad.reads_ == PendingAll(plan, id, j) && |pad.tables| == |layout.slots| == |pad.reads_|
    ensures
      var c := ReadInputs(plan, id)[j];
      && c < id && pad.reads_[c] > 0 && layout.slots[c] < |pad.tables| && Alone(layout.slots, pad.reads_, id, c)
      && ReadOnce(layout.slots, pad, c).reads_ == PendingAll(plan, id, j + 1)
  {
    PendingStep(plan, id, j);
    SlotInRange(plan, layout, ReadInputs(plan, id)[j]);
    ReadersAlone(plan, layout, id, j, ReadInputs(plan, id)[j]);
  }

  /** What the node does to its own table once its inputs are read. */
  function OwnDone(plan: Plan, slots: seq<nat>, pad: Pad, id: nat): Pad
    requires id < |pad.reads_| == |slots| && slots[id] < |pad.tables| && (id == plan.output ==> pad.reads_[id] > 0)
  {
    if id == plan.output then ReadOnce(slots, pad, id)
    else if pad.reads_[id] == 0 then Clear(pad, slots[id])
    else pad
  }

  lemma NodeDone(plan: Plan, layout: Layout, pad: Pad, live: seq<Bag>)
    requires LayoutOk(plan, layout) && 0 < |live| <= |plan.nodes|
    requires Reading(plan, layout, pad, live, |ReadInputs(plan, |live| - 1)|)
    ensures
      var id := |live| - 1;
      && layout.slots[id] < |pad.tables| && (id == plan.output ==> pad.reads_[id] > 0)
      && Kept(layout.slots, OwnDone(plan, layout.slots, pad, id), live)
      && Counted(plan, OwnDone(plan, layout.slots, pad, id).reads_, |live|)
  {
    var id, slots := |live| - 1, layout.slots;
    PendingDone(plan, id);
    ReadersAlone(plan, layout, id, |ReadInputs(plan, id)|, id);
    assert id == plan.output ==> pad.reads_[id] > 0;
    OwnIsDone(plan, slots, pad, live);
    assert Counted(plan, OwnDone(plan, slots, pad, id).reads_, id + 1);
  }

  lemma OwnIsDone(plan: Plan, slots: seq<nat>, pad: Pad, live: seq<Bag>)
    requires WrittenKept(slots, pad, live) && Alone(slots, pad.reads_, |live| - 1, |live| - 1)
    requires |live| - 1 == plan.output ==> pad.reads_[|live| - 1] > 0
    ensures
      var id := |live| - 1;
      && slots[id] < |pad.tables| && Kept(slots, OwnDone(plan, slots, pad, id), live)
      && OwnDone(plan, slots, pad,
                 id).reads_ == if id == plan.output then pad.reads_[id := pad.reads_[id] - 1] else pad.reads_
  {
    var id := |live| - 1;
    OwnKeeps(slots, pad, live, if id == plan.output then pad.reads_[id] - 1 else pad.reads_[id]);
    assert pad.reads_[id := pad.reads_[id]] == pad.reads_;
  }

  /** The table of an input that the node reads is complete. */
  lemma InputComplete(plan: Plan, layout: Layout, pad: Pad, live: seq<Bag>, side: nat)
    requires LayoutOk(plan, layout) && |live| < |plan.nodes| && Kept(layout.slots, pad, live)
    requires Counted(plan, pad.reads_, |live|)
    requires side < |ReadInputs(plan, |live|)|
    ensures Complete(layout.slots, pad, live, ReadInputs(plan, |live|)[side])
  {
    PendingStart(plan, |live|);
    var c := ReadInputs(plan, |live|)[side];
    ReadIsConsumed(plan, |live|, c);
    OccursIn(ReadInputs(plan, |live|), c);
    assert pad.reads_[c] == Remaining(plan, |live|, c);
  }

  /** A node that reads all its inputs finds the value of every one in its table. */
  lemma InputsComplete(plan: Plan, layout: Layout, pad: Pad, live: seq<Bag>)
    requires LayoutOk(plan, layout) && |live| < |plan.nodes| && Kept(layout.slots, pad, live)
    requires Counted(plan, pad.reads_, |live|) && ReadInputs(plan, |live|) == plan.nodes[|live|].inputs
    ensures
      var t := InputTables(plan, layout, pad.tables, |live|);
      AllPositive(t) && t == InputValues(plan, live, |live|)
  {
    var t, b := InputTables(plan, layout, pad.tables, |live|), InputValues(plan, live, |live|);
    forall side | 0 <= side < |t| ensures Positive(t[side]) && t[side] == b[side] {
      InputComplete(plan, layout, pad, live, side);
    }
  }

  // ---------------------------------------------------------------------- the end

  /** With every counter at zero, every table is empty. */
  lemma AllRead(slots: seq<nat>, pad: Pad, live: seq<Bag>)
    requires Kept(slots, pad, live) && forall n: nat | n < |pad.reads_| :: pad.reads_[n] == 0
    ensures forall s | 0 <= s < |pad.tables| :: pad.tables[s] == []
  {
    forall s: nat | s < |pad.tables| ensures pad.tables[s] == [] {
      assert Unneeded(slots, pad.reads_, |live|, s);
    }
  }

  /** After the last node the only read to come is that of the aggregate's input,
      and it finds its rows complete. */
  lemma LastReadsLeft(plan: Plan, layout: Layout, pad: Pad, live: seq<Bag>)
    requires LayoutOk(plan, layout) && |live| == |plan.nodes| && Kept(layout.slots, pad, live)
    requires Counted(plan, pad.reads_, |plan.nodes|)
    ensures plan.sums.None? ==> forall s | 0 <= s < |pad.tables| :: pad.tables[s] == []
    ensures plan.sums.Some? ==>
      var input := plan.nodes[plan.output].inputs[0];
      && pad.reads_[input] == 1 && layout.slots[input] < |pad.tables| && Complete(layout.slots, pad, live, input)
      && forall s | 0 <= s < |pad.tables| :: ReadOnce(layout.slots, pad, input).tables[s] == []
  {
    if plan.sums.Some? {
      var input := plan.nodes[plan.output].inputs[0];
      SlotInRange(plan, layout, input);
      forall s: nat | s < |pad.tables| && s != layout.slots[input] ensures pad.tables[s] == [] {
        assert Unneeded(layout.slots, pad.reads_, |live|, s);
      }
    } else {
      AllRead(layout.slots, pad, live);
    }
  }
}

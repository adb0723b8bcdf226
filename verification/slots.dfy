/** Sharing scratch tables between nodes: interval register allocation over the
    plan order, and initial population over the shared tables. */
module Slots {
  import opened Rows
  import opened Bags
  import opened Plans

  /** Where a node's delta lifetime begins: inputs are seeded before the first node. */
  function Start(plan: Plan, id: nat): nat
    requires id < |plan.nodes|
  {
    if plan.nodes[id].kind.Input? then 0 else id
  }

  predicate Consumes(plan: Plan, consumer: nat, id: nat) {
    consumer < |plan.nodes| && id in plan.nodes[consumer].inputs
  }

  /** Read again after the last node: by `apply_state` or the final sweep. */
  predicate LongLived(plan: Plan, id: nat)
    requires ValidPlan(plan) && id < |plan.nodes|
  {
    || id == plan.output
    || (plan.sums.Some? && id == plan.nodes[plan.output].inputs[0])
    || (plan.nodes[id].kind.Input? && forall c | 0 <= c < |plan.nodes| :: !Consumes(plan, c, id))
  }

  /** `last` is the latest position that reads the node's delta. */
  ghost predicate IsLastRead(plan: Plan, id: nat, last: nat)
    requires ValidPlan(plan) && id < |plan.nodes|
  {
    if LongLived(plan, id) then last == |plan.nodes|
    else
      && (forall c: nat | Consumes(plan, c, id) :: c <= last)
      && (last == id || Consumes(plan, last, id))
      && id <= last < |plan.nodes|
  }

  ghost predicate LastReadsOk(plan: Plan, lastReads: seq<nat>)
    requires ValidPlan(plan)
  {
    |lastReads| == |plan.nodes| && forall id | 0 <= id < |lastReads| :: IsLastRead(plan, id, lastReads[id])
  }

  /** Two nodes never hold a delta at the same time. */
  ghost predicate Apart(plan: Plan, lastReads: seq<nat>, i: nat, j: nat)
    requires i < |plan.nodes| == |lastReads| && j < |plan.nodes|
  {
    lastReads[i] < Start(plan, j) || lastReads[j] < Start(plan, i)
  }

  /** A table in the pool: its name, and the last read of its latest owner. */
  datatype Use = Use(slot: nat, end: nat)

  type Pool = map<nat, seq<Use>>

  function Uses(pool: Pool, width: nat): seq<Use> {
    if width in pool then pool[width] else []
  }

  function Max(a: nat, b: nat): nat {
    if a < b then b else a
  }

  /** Every table in the pool is named after a processed node of its width. */
  ghost predicate NamesOk(plan: Plan, slots: seq<nat>, pool: Pool)
    requires |slots| <= |plan.nodes|
  {
    forall w, u | w in pool && 0 <= u < |pool[w]| ::
      pool[w][u].slot < |slots| && slots[pool[w][u].slot] == pool[w][u].slot && plan.nodes[pool[w][u].slot].width == w
  }

  ghost predicate NoRepeats(uses: seq<Use>) {
    forall u, v | 0 <= u < v < |uses| :: uses[u].slot != uses[v].slot
  }

  ghost predicate NoneRepeats(pool: Pool) {
    forall w | w in pool :: NoRepeats(pool[w])
  }

  ghost predicate Holds(uses: seq<Use>, u: nat, slot: nat, end: nat) {
    u < |uses| && uses[u].slot == slot && end <= uses[u].end
  }

  ghost predicate Pooled(uses: seq<Use>, slot: nat, end: nat) {
    exists u: nat :: Holds(uses, u, slot, end)
  }

  /** Each processed node's slot is in its width's pool, free no earlier than the
      node's last read. */
  ghost predicate AllPooled(plan: Plan, lastReads: seq<nat>, slots: seq<nat>, pool: Pool)
    requires |slots| <= |plan.nodes| == |lastReads|
  {
    forall i | 0 <= i < |slots| :: Pooled(Uses(pool, plan.nodes[i].width), slots[i], lastReads[i])
  }

  ghost predicate PoolOk(plan: Plan, lastReads: seq<nat>, slots: seq<nat>, pool: Pool)
    requires |slots| <= |plan.nodes| == |lastReads|
  {
    NamesOk(plan, slots, pool) && NoneRepeats(pool) && AllPooled(plan, lastReads, slots, pool)
  }

  /** A node's slot is the first node of its chain, of the same width. */
  ghost predicate NamedEarlier(plan: Plan, slots: seq<nat>)
    requires |slots| <= |plan.nodes|
  {
    forall i | 0 <= i < |slots| :: slots[i] <= i && NamesChain(plan, slots, i, slots[i])
  }

  ghost predicate NamesChain(plan: Plan, slots: seq<nat>, i: nat, slot: nat)
    requires i < |plan.nodes| && |slots| <= |plan.nodes|
  {
    slot < |slots| && slots[slot] == slot && plan.nodes[slot].width == plan.nodes[i].width
  }

  ghost predicate OwnersDisjoint(plan: Plan, lastReads: seq<nat>, slots: seq<nat>)
    requires |slots| <= |plan.nodes| == |lastReads|
  {
    forall i, j | 0 <= i < j < |slots| && slots[i] == slots[j] :: Apart(plan, lastReads, i, j)
  }

  ghost predicate PrefixOk(plan: Plan, lastReads: seq<nat>, slots: seq<nat>)
    requires |slots| <= |plan.nodes| == |lastReads|
  {
    NamedEarlier(plan, slots) && OwnersDisjoint(plan, lastReads, slots)
  }

  /** The first table of the width whose owner is read out before `start`. */
  method FindFree(uses: seq<Use>, start: nat) returns (u: nat)
    ensures u <= |uses| && (u < |uses| ==> uses[u].end < start)
    ensures forall v | 0 <= v < u :: uses[v].end >= start
  {
    u := 0;
    while u < |uses| && uses[u].end >= start
      invariant u <= |uses| && forall v | 0 <= v < u :: uses[v].end >= start
    {
      u := u + 1;
    }
  }

  lemma NoRepeatsUnique(uses: seq<Use>, u: nat, v: nat)
    requires NoRepeats(uses) && u < |uses| && v < |uses| && uses[u].slot == uses[v].slot
    ensures u == v
  {
  }

  /** The nodes that own a pooled table were all read out by its `end`. */
  lemma OwnersEnded(plan: Plan, lastReads: seq<nat>, slots: seq<nat>, pool: Pool, w: nat, u: nat, i: nat)
    requires |slots| <= |plan.nodes| == |lastReads| && PoolOk(plan, lastReads, slots, pool) && NamedEarlier(plan, slots)
    requires w in pool && u < |pool[w]| && i < |slots| && slots[i] == pool[w][u].slot
    ensures plan.nodes[i].width == w && lastReads[i] <= pool[w][u].end
  {
    var v: nat :| Holds(Uses(pool, plan.nodes[i].width), v, slots[i], lastReads[i]);
    var w' := plan.nodes[i].width;
    assert w' in pool && pool[w'][v].slot == pool[w][u].slot && w' == w;
    NoRepeatsUnique(pool[w], u, v);
  }

  /** Replacing a width's uses keeps every node held that the old uses held. */
  lemma StillPooled(plan: Plan, lastReads: seq<nat>, slots: seq<nat>, pool: Pool, w: nat, uses: seq<Use>)
    requires |slots| < |plan.nodes| == |lastReads| && AllPooled(plan, lastReads, slots, pool)
    requires |Uses(pool, w)| <= |uses|
    requires forall u | 0 <= u < |Uses(pool, w)| ::
               uses[u].slot == Uses(pool, w)[u].slot && Uses(pool, w)[u].end <= uses[u].end
    ensures AllPooled(plan, lastReads, slots, pool[w := uses])
  {
    forall i | 0 <= i < |slots| ensures Pooled(Uses(pool[w := uses], plan.nodes[i].width), slots[i], lastReads[i]) {
      var v: nat :| Holds(Uses(pool, plan.nodes[i].width), v, slots[i], lastReads[i]);
      if plan.nodes[i].width == w {
        assert uses[v].slot == Uses(pool, w)[v].slot;
        assert Uses(pool[w := uses], w) == uses;
      }
      assert Holds(Uses(pool[w := uses], plan.nodes[i].width), v, slots[i], lastReads[i]);
    }
  }

  lemma ExtendPooled(plan: Plan, lastReads: seq<nat>, slots: seq<nat>, pool: Pool, slot: nat, u: nat)
    requires |slots| < |plan.nodes| == |lastReads| && AllPooled(plan, lastReads, slots, pool)
    requires Holds(Uses(pool, plan.nodes[|slots|].width), u, slot, lastReads[|slots|])
    ensures AllPooled(plan, lastReads, slots + [slot], pool)
  {
    var slots' := slots + [slot];
    forall i | 0 <= i < |slots'| ensures Pooled(Uses(pool, plan.nodes[i].width), slots'[i], lastReads[i]) {
      if i < |slots| {
        var v: nat :| Holds(Uses(pool, plan.nodes[i].width), v, slots[i], lastReads[i]);
        assert Holds(Uses(pool, plan.nodes[i].width), v, slots'[i], lastReads[i]);
      } else {
        assert Holds(Uses(pool, plan.nodes[i].width), u, slots'[i], lastReads[i]);
      }
    }
  }

  lemma AppendOwner(plan: Plan, lastReads: seq<nat>, slots: seq<nat>, slot: nat)
    requires |slots| < |plan.nodes| == |lastReads| && PrefixOk(plan, lastReads, slots)
    requires NamesChain(plan, slots, |slots|, slot)
    requires forall i: nat | i < |slots| && slots[i] == slot :: Apart(plan, lastReads, i, |slots|)
    ensures PrefixOk(plan, lastReads, slots + [slot])
  {
    var slots' := slots + [slot];
    forall i: nat | i < |slots'| ensures slots'[i] <= i && NamesChain(plan, slots', i, slots'[i]) {
      if i < |slots| {
        assert NamesChain(plan, slots, i, slots[i]);
      }
    }
  }

  /** The node after the prefix takes over a table whose owners are read out. */
  lemma ReuseKeepsPrefix(plan: Plan, lastReads: seq<nat>, slots: seq<nat>, pool: Pool, u: nat)
    requires |slots| < |plan.nodes| == |lastReads|
    requires PoolOk(plan, lastReads, slots, pool) && PrefixOk(plan, lastReads, slots)
    requires
      var uses := Uses(pool, plan.nodes[|slots|].width);
      u < |uses| && uses[u].end < Start(plan, |slots|)
    ensures PrefixOk(plan, lastReads, slots + [Uses(pool, plan.nodes[|slots|].width)[u].slot])
  {
    var w := plan.nodes[|slots|].width;
    forall i: nat | i < |slots| && slots[i] == pool[w][u].slot ensures Apart(plan, lastReads, i, |slots|) {
      OwnersEnded(plan, lastReads, slots, pool, w, u, i);
    }
    AppendOwner(plan, lastReads, slots, pool[w][u].slot);
  }

  lemma ReuseKeepsPool(plan: Plan, lastReads: seq<nat>, slots: seq<nat>, pool: Pool, u: nat)
    requires |slots| < |plan.nodes| == |lastReads| && |slots| <= lastReads[|slots|]
    requires PoolOk(plan, lastReads, slots, pool)
    requires
      var uses := Uses(pool, plan.nodes[|slots|].width);
      u < |uses| && uses[u].end < Start(plan, |slots|)
    ensures
      var w := plan.nodes[|slots|].width;
      var uses := Uses(pool, w);
      PoolOk(plan, lastReads, slots + [uses[u].slot], pool[w := uses[u := Use(uses[u].slot, lastReads[|slots|])]])
  {
    var id := |slots|;
    var w := plan.nodes[id].width;
    var uses := pool[w];
    var uses' := uses[u := Use(uses[u].slot, lastReads[id])];
    StillPooled(plan, lastReads, slots, pool, w, uses');
    assert Holds(Uses(pool[w := uses'], w), u, uses[u].slot, lastReads[id]);
    ExtendPooled(plan, lastReads, slots, pool[w := uses'], uses[u].slot, u);
    SameNames(plan, slots, pool, w, uses', uses[u].slot);
  }

  /** Uses that keep their tables keep their names. */
  lemma SameNames(plan: Plan, slots: seq<nat>, pool: Pool, w: nat, uses: seq<Use>, slot: nat)
    requires |slots| < |plan.nodes| && NamesOk(plan, slots, pool) && NoneRepeats(pool)
    requires w in pool && |uses| == |pool[w]| && forall v | 0 <= v < |uses| :: uses[v].slot == pool[w][v].slot
    ensures NamesOk(plan, slots + [slot], pool[w := uses])
    ensures NoneRepeats(pool[w := uses])
  {
    var pool': Pool := pool[w := uses];
    forall x: nat, v: nat | x in pool' && v < |pool'[x]|
      ensures pool'[x][v].slot < |slots| && slots[pool'[x][v].slot] == pool'[x][v].slot
      ensures plan.nodes[pool'[x][v].slot].width == x
    {
      assert pool'[x][v].slot == pool[x][v].slot;
    }
    forall x | x in pool' ensures NoRepeats(pool'[x]) {
      assert NoRepeats(pool[x]);
    }
  }

  lemma FreshKeepsPool(plan: Plan, lastReads: seq<nat>, slots: seq<nat>, pool: Pool)
    requires |slots| < |plan.nodes| == |lastReads|
    requires PoolOk(plan, lastReads, slots, pool) && NamedEarlier(plan, slots)
    ensures
      var w := plan.nodes[|slots|].width;
      PoolOk(plan, lastReads, slots + [|slots|], pool[w := Uses(pool, w) + [Use(|slots|, lastReads[|slots|])]])
  {
    var id := |slots|;
    var w := plan.nodes[id].width;
    var uses := Uses(pool, w);
    var uses' := uses + [Use(id, lastReads[id])];
    StillPooled(plan, lastReads, slots, pool, w, uses');
    assert Holds(Uses(pool[w := uses'], w), |uses|, id, lastReads[id]);
    ExtendPooled(plan, lastReads, slots, pool[w := uses'], id, |uses|);
    assert NoRepeats(uses') by {
      if w in pool { assert NoRepeats(pool[w]); }
    }
  }

  lemma FreshKeepsPrefix(plan: Plan, lastReads: seq<nat>, slots: seq<nat>)
    requires |slots| < |plan.nodes| == |lastReads| && PrefixOk(plan, lastReads, slots)
    ensures PrefixOk(plan, lastReads, slots + [|slots|])
  {
    var slots' := slots + [|slots|];
    forall i: nat | i < |slots'| ensures slots'[i] <= i && NamesChain(plan, slots', i, slots'[i]) {
      if i < |slots| {
        assert NamesChain(plan, slots, i, slots[i]);
      }
    }
  }

  /** `latest` is the last consumer of every node below `bound`, or the node itself. */
  ghost predicate Latest(plan: Plan, latest: seq<nat>, bound: nat)
    requires |latest| == |plan.nodes|
  {
    && (forall id | 0 <= id < |latest| :: id <= latest[id] < |latest|)
    && (forall id, c: nat | 0 <= id < |latest| && c < bound && Consumes(plan, c, id) :: c <= latest[id])
    && (forall id | 0 <= id < |latest| :: latest[id] == id || (latest[id] < bound && Consumes(plan, latest[id], id)))
  }

  method LatestConsumers(plan: Plan) returns (latest: seq<nat>)
    requires ValidPlan(plan)
    ensures |latest| == |plan.nodes| && Latest(plan, latest, |plan.nodes|)
  {
    var count := |plan.nodes|;
    latest := seq(count, id => id);
    for consumer := 0 to count
      invariant |latest| == count && Latest(plan, latest, consumer)
    {
      var inputs := plan.nodes[consumer].inputs;
      ghost var before := latest;
      for i := 0 to |inputs|
        invariant |latest| == count
        invariant forall id | 0 <= id < count ::
                    latest[id] == if id in inputs[..i] then Max(before[id], consumer) else before[id]
      {
        latest := latest[inputs[i] := Max(latest[inputs[i]], consumer)];
        assert inputs[..i + 1] == inputs[..i] + [inputs[i]];
      }
      assert inputs[..|inputs|] == inputs;
    }
  }

  /** The latest reader of each node; long-lived nodes last to the end. */
  method LastReads(plan: Plan) returns (lastReads: seq<nat>)
    requires ValidPlan(plan)
    ensures LastReadsOk(plan, lastReads)
  {
    var count := |plan.nodes|;
    var latest := LatestConsumers(plan);
    lastReads := latest[plan.output := count];
    if plan.sums.Some? {
      lastReads := lastReads[plan.nodes[plan.output].inputs[0] := count];
    }
    for id := 0 to count
      invariant |lastReads| == count
      invariant forall j | id <= j < count ::
        lastReads[j] ==
          if j == plan.output || (plan.sums.Some? && j == plan.nodes[plan.output].inputs[0]) then count else latest[j]
      invariant forall j | 0 <= j < id :: IsLastRead(plan, j, lastReads[j])
    {
      if plan.nodes[id].kind.Input? && lastReads[id] == id {
        Unread(plan, id, latest[id]);
        lastReads := lastReads[id := count];
      } else if LongLived(plan, id) && lastReads[id] != count {
        ReadInput(plan, id, latest[id]);
      }
    }
  }

  /** An input that nothing consumes is long-lived. */
  lemma Unread(plan: Plan, id: nat, last: nat)
    requires ValidPlan(plan) && id < |plan.nodes| && plan.nodes[id].kind.Input?
    requires last == id && forall c: nat | Consumes(plan, c, id) :: c <= last
    ensures LongLived(plan, id)
  {
    forall c: nat | Consumes(plan, c, id) ensures false {
      ConsumerLater(plan, c, id);
    }
  }

  lemma ConsumerLater(plan: Plan, c: nat, id: nat)
    requires ValidPlan(plan) && Consumes(plan, c, id)
    ensures id < c
  {
    var i :| 0 <= i < |plan.nodes[c].inputs| && plan.nodes[c].inputs[i] == id;
  }

  lemma ReadInput(plan: Plan, id: nat, last: nat)
    requires ValidPlan(plan) && id < |plan.nodes| && last != id && Consumes(plan, last, id)
    ensures LongLived(plan, id) ==> id == plan.output || (plan.sums.Some? && id == plan.nodes[plan.output].inputs[0])
  {
  }

  // -------------------------------------------------------------- no table too many

  /** Somebody before `id` still reads table `s` when `id` starts. */
  ghost predicate InUse(plan: Plan, lastReads: seq<nat>, slots: seq<nat>, id: nat, s: nat)
    requires id < |plan.nodes| == |lastReads| && id <= |slots|
  {
    exists n: nat :: n < id && slots[n] == s && lastReads[n] >= Start(plan, id)
  }

  /** Node `id` takes the first table of its width that is not in use, and a new one only
      when all are. */
  ghost predicate Greedy(plan: Plan, lastReads: seq<nat>, slots: seq<nat>, id: nat)
    requires id < |slots| <= |plan.nodes| == |lastReads|
  {
    && slots[id] <= id
    && forall s: nat | s < slots[id] && slots[s] == s && plan.nodes[s].width == plan.nodes[id].width ::
         InUse(plan, lastReads, slots, id, s)
  }

  ghost predicate AllGreedy(plan: Plan, lastReads: seq<nat>, slots: seq<nat>)
    requires |slots| <= |plan.nodes| == |lastReads|
  {
    forall id: nat | id < |slots| :: Greedy(plan, lastReads, slots, id)
  }

  ghost predicate Owned(lastReads: seq<nat>, slots: seq<nat>, use: Use)
    requires |slots| <= |lastReads|
  {
    exists n: nat :: n < |slots| && slots[n] == use.slot && lastReads[n] == use.end
  }

  /** Tables in the order they were made, each with the last read of one of its owners. */
  ghost predicate UsesTight(lastReads: seq<nat>, slots: seq<nat>, uses: seq<Use>)
    requires |slots| <= |lastReads|
  {
    && (forall u | 0 <= u < |uses| :: Owned(lastReads, slots, uses[u]))
    && (forall u, v | 0 <= u < v < |uses| :: uses[u].slot < uses[v].slot)
  }

  ghost predicate PoolTight(lastReads: seq<nat>, slots: seq<nat>, pool: Pool)
    requires |slots| <= |lastReads|
  {
    forall w | w in pool :: UsesTight(lastReads, slots, pool[w])
  }

  lemma StillOwned(lastReads: seq<nat>, slots: seq<nat>, slot: nat, use: Use)
    requires |slots| < |lastReads| && Owned(lastReads, slots, use)
    ensures Owned(lastReads, slots + [slot], use)
  {
    var n: nat :| n < |slots| && slots[n] == use.slot && lastReads[n] == use.end;
    assert (slots + [slot])[n] == slots[n];
  }

  lemma NowOwned(lastReads: seq<nat>, slots: seq<nat>, slot: nat)
    requires |slots| < |lastReads|
    ensures Owned(lastReads, slots + [slot], Use(slot, lastReads[|slots|]))
  {
    assert (slots + [slot])[|slots|] == slot;
  }

  lemma StillTight(lastReads: seq<nat>, slots: seq<nat>, slot: nat, uses: seq<Use>)
    requires |slots| < |lastReads| && UsesTight(lastReads, slots, uses)
    ensures UsesTight(lastReads, slots + [slot], uses)
  {
    forall v | 0 <= v < |uses| ensures Owned(lastReads, slots + [slot], uses[v]) {
      StillOwned(lastReads, slots, slot, uses[v]);
    }
  }

  lemma TightReuse(lastReads: seq<nat>, slots: seq<nat>, uses: seq<Use>, u: nat)
    requires |slots| < |lastReads| && UsesTight(lastReads, slots, uses) && u < |uses|
    ensures UsesTight(lastReads, slots + [uses[u].slot], uses[u := Use(uses[u].slot, lastReads[|slots|])])
  {
    var slot := uses[u].slot;
    StillTight(lastReads, slots, slot, uses);
    NowOwned(lastReads, slots, slot);
  }

  lemma TightFresh(lastReads: seq<nat>, slots: seq<nat>, uses: seq<Use>)
    requires |slots| < |lastReads| && UsesTight(lastReads, slots, uses)
    requires forall v | 0 <= v < |uses| :: uses[v].slot < |slots|
    ensures UsesTight(lastReads, slots + [|slots|], uses + [Use(|slots|, lastReads[|slots|])])
  {
    StillTight(lastReads, slots, |slots|, uses);
    NowOwned(lastReads, slots, |slots|);
  }

  lemma TightPool(lastReads: seq<nat>, slots: seq<nat>, pool: Pool, w: nat, uses: seq<Use>, slot: nat)
    requires |slots| < |lastReads| && PoolTight(lastReads, slots, pool)
    requires UsesTight(lastReads, slots + [slot], uses)
    ensures PoolTight(lastReads, slots + [slot], pool[w := uses])
  {
    forall x | x in pool && x != w ensures UsesTight(lastReads, slots + [slot], pool[x]) {
      StillTight(lastReads, slots, slot, pool[x]);
    }
  }

  /** Every table made before the one taken is in use. */
  lemma GreedyNext(plan: Plan, lastReads: seq<nat>, slots: seq<nat>, uses: seq<Use>, u: nat, slot: nat)
    requires |slots| < |plan.nodes| == |lastReads| && AllGreedy(plan, lastReads, slots) && slot <= |slots|
    requires UsesTight(lastReads, slots, uses) && u <= |uses|
    requires forall v | 0 <= v < u :: uses[v].end >= Start(plan, |slots|)
    requires forall v | u <= v < |uses| :: slot <= uses[v].slot
    requires forall s: nat | s < |slots| && slots[s] == s && plan.nodes[s].width == plan.nodes[|slots|].width ::
               Pooled(uses, s, lastReads[s])
    ensures AllGreedy(plan, lastReads, slots + [slot])
  {
    var id, slots' := |slots|, slots + [slot];
    forall s: nat | s < slot && slots'[s] == s && plan.nodes[s].width == plan.nodes[id].width
      ensures InUse(plan, lastReads, slots', id, s) {
      assert slots[s] == s && Pooled(uses, s, lastReads[s]);
      var v: nat :| Holds(uses, v, s, lastReads[s]);
      assert Owned(lastReads, slots, uses[v]);
      var n: nat :| n < |slots| && slots[n] == uses[v].slot && lastReads[n] == uses[v].end;
      assert slots'[n] == s;
    }
    assert Greedy(plan, lastReads, slots', id);
    forall i: nat | i < id ensures Greedy(plan, lastReads, slots', i) {
      GreedyKept(plan, lastReads, slots, slot, i);
    }
  }

  lemma GreedyKept(plan: Plan, lastReads: seq<nat>, slots: seq<nat>, slot: nat, i: nat)
    requires |slots| < |plan.nodes| == |lastReads| && i < |slots| && Greedy(plan, lastReads, slots, i)
    ensures Greedy(plan, lastReads, slots + [slot], i)
  {
    var slots' := slots + [slot];
    forall s: nat | s < slots'[i] && slots'[s] == s && plan.nodes[s].width == plan.nodes[i].width
      ensures InUse(plan, lastReads, slots', i, s)
    {
      assert InUse(plan, lastReads, slots, i, s);
      var n: nat :| n < i && slots[n] == s && lastReads[n] >= Start(plan, i);
      assert slots'[n] == s;
    }
  }

  /** What `GreedyNext` asks of the pool. */
  lemma PoolOffers(plan: Plan, lastReads: seq<nat>, slots: seq<nat>, pool: Pool)
    requires |slots| < |plan.nodes| == |lastReads| && PoolOk(plan, lastReads, slots, pool)
    requires PoolTight(lastReads, slots, pool)
    ensures
      var w := plan.nodes[|slots|].width;
      var uses := Uses(pool, w);
      && UsesTight(lastReads, slots, uses) && (forall v | 0 <= v < |uses| :: uses[v].slot < |slots|)
      && forall s: nat | s < |slots| && slots[s] == s && plan.nodes[s].width == w :: Pooled(uses, s, lastReads[s])
  {
    var w := plan.nodes[|slots|].width;
    forall s: nat | s < |slots| && slots[s] == s && plan.nodes[s].width == w
      ensures Pooled(Uses(pool, w), s, lastReads[s]) {
      assert Pooled(Uses(pool, plan.nodes[s].width), slots[s], lastReads[s]);
    }
  }

  ghost predicate Assigned(plan: Plan, lastReads: seq<nat>, slots: seq<nat>, pool: Pool)
    requires |slots| <= |plan.nodes| == |lastReads|
  {
    && PoolOk(plan, lastReads, slots, pool) && PrefixOk(plan, lastReads, slots)
    && PoolTight(lastReads, slots, pool) && AllGreedy(plan, lastReads, slots)
  }

  lemma AssignedReuse(plan: Plan, lastReads: seq<nat>, slots: seq<nat>, pool: Pool, w: nat, uses: seq<Use>, u: nat)
    requires |slots| < |plan.nodes| == |lastReads| && |slots| <= lastReads[|slots|]
    requires Assigned(plan, lastReads, slots, pool) && w == plan.nodes[|slots|].width && uses == Uses(pool, w)
    requires u < |uses| && uses[u].end < Start(plan, |slots|)
    requires forall v | 0 <= v < u :: uses[v].end >= Start(plan, |slots|)
    ensures Assigned(plan, lastReads, slots + [uses[u].slot],
                     pool[w := uses[u := Use(uses[u].slot, lastReads[|slots|])]])
  {
    PoolOffers(plan, lastReads, slots, pool);
    ReuseKeepsPrefix(plan, lastReads, slots, pool, u);
    ReuseKeepsPool(plan, lastReads, slots, pool, u);
    TightReuse(lastReads, slots, uses, u);
    TightPool(lastReads, slots, pool, w, uses[u := Use(uses[u].slot, lastReads[|slots|])], uses[u].slot);
    GreedyNext(plan, lastReads, slots, uses, u, uses[u].slot);
  }

  lemma AssignedFresh(plan: Plan, lastReads: seq<nat>, slots: seq<nat>, pool: Pool, w: nat, uses: seq<Use>)
    requires |slots| < |plan.nodes| == |lastReads|
    requires Assigned(plan, lastReads, slots, pool) && w == plan.nodes[|slots|].width && uses == Uses(pool, w)
    requires forall v | 0 <= v < |uses| :: uses[v].end >= Start(plan, |slots|)
    ensures Assigned(plan, lastReads, slots + [|slots|], pool[w := uses + [Use(|slots|, lastReads[|slots|])]])
  {
    PoolOffers(plan, lastReads, slots, pool);
    FreshKeepsPrefix(plan, lastReads, slots);
    FreshKeepsPool(plan, lastReads, slots, pool);
    TightFresh(lastReads, slots, uses);
    TightPool(lastReads, slots, pool, w, uses + [Use(|slots|, lastReads[|slots|])], |slots|);
    GreedyNext(plan, lastReads, slots, uses, |uses|, |slots|);
  }

  /** Give non-overlapping delta lifetimes of the same width one scratch table, the
      first that is not in use. */
  method AssignOutSlots(plan: Plan) returns (slots: seq<nat>, lastReads: seq<nat>)
    requires ValidPlan(plan)
    ensures LastReadsOk(plan, lastReads) && |slots| == |plan.nodes| && PrefixOk(plan, lastReads, slots)
    ensures AllGreedy(plan, lastReads, slots)
  {
    lastReads := LastReads(plan);
    slots := [];
    var pool: Pool := map[];
    for id := 0 to |plan.nodes|
      invariant |slots| == id && |lastReads| == |plan.nodes| && Assigned(plan, lastReads, slots, pool)
    {
      var w, start := plan.nodes[id].width, Start(plan, id);
      var uses := Uses(pool, w);
      var u := FindFree(uses, start);
      assert IsLastRead(plan, id, lastReads[id]);
      if u < |uses| {
        AssignedReuse(plan, lastReads, slots, pool, w, uses, u);
        slots := slots + [uses[u].slot];
        pool := pool[w := uses[u := Use(uses[u].slot, lastReads[id])]];
      } else {
        AssignedFresh(plan, lastReads, slots, pool, w, uses);
        slots := slots + [id];
        pool := pool[w := uses + [Use(id, lastReads[id])]];
      }
    }
  }

  /** A node starting to write finds no other owner of its table still read. */
  lemma OwnersApart(plan: Plan, lastReads: seq<nat>, slots: seq<nat>, id: nat, c: nat)
    requires ValidPlan(plan) && LastReadsOk(plan, lastReads) && |slots| == |plan.nodes|
    requires PrefixOk(plan, lastReads, slots)
    requires id < |plan.nodes| && c < |plan.nodes| && c != id
    requires Start(plan, c) <= lastReads[id] && Start(plan, id) <= lastReads[c]
    ensures slots[c] != slots[id]
  {
    assert !Apart(plan, lastReads, c, id) && !Apart(plan, lastReads, id, c);
  }
}

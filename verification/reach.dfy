/** The benchmark oracle's closure of an edge table from its roots, over cells that
    are compared by a domain key. */
module Oracle {
  import opened Rows

  datatype Edge = Edge(source: Value, target: Value)

  predicate HasClass(cells: seq<Value>, key: Value -> Value, k: Value) {
    exists i :: 0 <= i < |cells| && key(cells[i]) == k
  }

  predicate OnePerClass(cells: seq<Value>, key: Value -> Value) {
    forall i, j | 0 <= i < j < |cells| :: key(cells[i]) != key(cells[j])
  }

  predicate Leads(edges: seq<Edge>, key: Value -> Value, p: Value, k: Value) {
    exists i :: 0 <= i < |edges| && key(edges[i].source) == p && key(edges[i].target) == k
  }

  /** A path of `n` edges leads from a root's class to class `k`. */
  ghost predicate Path(edges: seq<Edge>, roots: seq<Value>, key: Value -> Value, n: nat, k: Value) {
    if n == 0 then HasClass(roots, key, k)
    else exists p :: Path(edges, roots, key, n - 1, p) && Leads(edges, key, p, k)
  }

  ghost predicate Reachable(edges: seq<Edge>, roots: seq<Value>, key: Value -> Value, k: Value) {
    exists n: nat :: Path(edges, roots, key, n, k)
  }

  ghost predicate AllReachable(edges: seq<Edge>, roots: seq<Value>, key: Value -> Value, cells: seq<Value>) {
    forall i | 0 <= i < |cells| :: Reachable(edges, roots, key, key(cells[i]))
  }

  /** Every root's class is there, and with a class every class its edges lead to. */
  ghost predicate ClosedUnder(edges: seq<Edge>, roots: seq<Value>, key: Value -> Value, cells: seq<Value>) {
    && (forall i | 0 <= i < |roots| :: HasClass(cells, key, key(roots[i])))
    && (forall i | 0 <= i < |edges| :: HasClass(cells, key, key(edges[i].source)) ==>
         HasClass(cells, key, key(edges[i].target)))
  }

  lemma {:induction false} PathInside(edges: seq<Edge>, roots: seq<Value>, key: Value -> Value, cells: seq<Value>,
                                      n: nat, k: Value)
    requires ClosedUnder(edges, roots, key, cells) && Path(edges, roots, key, n, k)
    ensures HasClass(cells, key, k)
  {
    if n > 0 {
      var p :| Path(edges, roots, key, n - 1, p) && Leads(edges, key, p, k);
      PathInside(edges, roots, key, cells, n - 1, p);
    }
  }

  lemma StepReachable(edges: seq<Edge>, roots: seq<Value>, key: Value -> Value, i: nat)
    requires i < |edges| && Reachable(edges, roots, key, key(edges[i].source))
    ensures Reachable(edges, roots, key, key(edges[i].target))
  {
    var n: nat :| Path(edges, roots, key, n, key(edges[i].source));
    assert Leads(edges, key, key(edges[i].source), key(edges[i].target));
    assert Path(edges, roots, key, n + 1, key(edges[i].target));
  }

  lemma RootReachable(edges: seq<Edge>, roots: seq<Value>, key: Value -> Value, i: nat)
    requires i < |roots|
    ensures Reachable(edges, roots, key, key(roots[i]))
  {
    assert Path(edges, roots, key, 0, key(roots[i]));
  }

  function TargetClasses(edges: seq<Edge>, key: Value -> Value): (classes: set<Value>)
    ensures |classes| <= |edges|
    ensures forall i | 0 <= i < |edges| :: key(edges[i].target) in classes
  {
    if edges == [] then {}
    else
      var rest := TargetClasses(edges[1..], key);
      assert forall i | 0 <= i < |edges[1..]| :: edges[1..][i] == edges[i + 1];
      {key(edges[0].target)} + rest
  }

  /** Cells of distinct classes, all of them targets, are no more than the edges. */
  lemma {:induction false} ClassesBound(cells: seq<Value>, key: Value -> Value, classes: set<Value>)
    requires OnePerClass(cells, key) && forall i | 0 <= i < |cells| :: key(cells[i]) in classes
    ensures |cells| <= |classes|
  {
    if cells != [] {
      var last := |cells| - 1;
      ClassesBound(cells[..last], key, classes - {key(cells[last])});
    }
  }

  method Add(value: Value, reached: seq<Value>, key: Value -> Value) returns (added: bool, next: seq<Value>)
    ensures added <==> !HasClass(reached, key, key(value))
    ensures next == if added then reached + [value] else reached
  {
    added := !exists i :: 0 <= i < |reached| && key(reached[i]) == key(value);
    next := if added then reached + [value] else reached;
  }

  lemma AddedClass(reached: seq<Value>, key: Value -> Value, value: Value)
    ensures forall k :: HasClass(reached + [value], key, k) <==> HasClass(reached, key, k) || k == key(value)
    ensures OnePerClass(reached, key) && !HasClass(reached, key, key(value)) ==> OnePerClass(reached + [value], key)
  {
    var next := reached + [value];
    forall k ensures HasClass(next, key, k) <==> HasClass(reached, key, k) || k == key(value) {
      if i :| 0 <= i < |reached| && key(reached[i]) == k {
        assert next[i] == reached[i];
      }
      assert next[|reached|] == value;
    }
  }

  /** What every pass keeps: reachable classes once each, roots first, targets after. */
  ghost predicate Growing(edges: seq<Edge>, roots: seq<Value>, key: Value -> Value, reached: seq<Value>, start: nat) {
    && OnePerClass(reached, key) && AllReachable(edges, roots, key, reached)
    && (forall i | 0 <= i < |roots| :: HasClass(reached, key, key(roots[i])))
    && start <= |reached|
    && (forall i | start <= i < |reached| :: key(reached[i]) in TargetClasses(edges, key))
  }

  /** Never more classes past the roots than edges. */
  lemma GrowthBound(edges: seq<Edge>, roots: seq<Value>, key: Value -> Value, reached: seq<Value>, start: nat)
    requires Growing(edges, roots, key, reached, start)
    ensures |reached| <= start + |edges|
  {
    ClassesBound(reached[start..], key, TargetClasses(edges, key));
  }

  /** One pass over the edges. */
  method Pass(edges: seq<Edge>, roots: seq<Value>, key: Value -> Value, reached: seq<Value>,
              ghost start: nat) returns (changed: bool, next: seq<Value>)
    requires Growing(edges, roots, key, reached, start)
    ensures Growing(edges, roots, key, next, start)
    ensures changed ==> |next| > |reached|
    ensures !changed ==> next == reached && ClosedUnder(edges, roots, key, reached)
  {
    changed, next := false, reached;
    for i := 0 to |edges|
      invariant Growing(edges, roots, key, next, start)
      invariant if changed then |next| > |reached| else next == reached
      invariant !changed ==> forall j | 0 <= j < i :: HasClass(reached, key, key(edges[j].source)) ==>
                  HasClass(reached, key, key(edges[j].target))
    {
      if exists e :: 0 <= e < |next| && key(next[e]) == key(edges[i].source) {
        var added;
        var longer;
        added, longer := Add(edges[i].target, next, key);
        if added {
          AddedClass(next, key, edges[i].target);
          StepReachable(edges, roots, key, i);
          changed := true;
        }
        next := longer;
      }
    }
  }

  method Start(edges: seq<Edge>, roots: seq<Value>, key: Value -> Value) returns (reached: seq<Value>)
    ensures Growing(edges, roots, key, reached, |reached|)
  {
    reached := [];
    for i := 0 to |roots|
      invariant OnePerClass(reached, key) && AllReachable(edges, roots, key, reached)
      invariant forall j | 0 <= j < i :: HasClass(reached, key, key(roots[j]))
    {
      var added;
      var longer;
      added, longer := Add(roots[i], reached, key);
      AddedClass(reached, key, roots[i]);
      RootReachable(edges, roots, key, i);
      reached := longer;
    }
  }

  /** The closure returns each reachable class exactly once, and its budget of one
      pass more than there are edges is never exhausted. */
  method ReachCycle(edges: seq<Edge>, roots: seq<Value>, key: Value -> Value) returns (ok: bool, reached: seq<Value>)
    ensures ok
    ensures OnePerClass(reached, key)
    ensures forall k :: HasClass(reached, key, k) <==> Reachable(edges, roots, key, k)
  {
    reached := Start(edges, roots, key);
    ghost var start := |reached|;
    var remaining := |edges| + 1;
    while true
      invariant Growing(edges, roots, key, reached, start)
      invariant 0 < remaining && |reached| - start >= |edges| + 1 - remaining
      decreases remaining
    {
      var changed;
      var next;
      changed, next := Pass(edges, roots, key, reached, start);
      GrowthBound(edges, roots, key, next, start);
      reached := next;
      if !changed {
        ClosureExact(edges, roots, key, reached);
        return true, reached;
      }
      remaining := remaining - 1;
      if remaining == 0 {
        return false, reached;
      }
    }
  }

  lemma ClosureExact(edges: seq<Edge>, roots: seq<Value>, key: Value -> Value, reached: seq<Value>)
    requires ClosedUnder(edges, roots, key, reached) && AllReachable(edges, roots, key, reached)
    ensures forall k :: HasClass(reached, key, k) <==> Reachable(edges, roots, key, k)
  {
    forall k | Reachable(edges, roots, key, k) ensures HasClass(reached, key, k) {
      var n: nat :| Path(edges, roots, key, n, k);
      PathInside(edges, roots, key, reached, n, k);
    }
  }
}

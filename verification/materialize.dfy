/** Executing the statement that materializes a join, a group, EXCEPT or
    INTERSECT, with the checks made on the way. */
module Materialize {
  import opened Rows
  import opened Bags
  import opened Plans
  import opened Locality
  import opened NodeMeaning
  import ApplyState
  import SetMembership

  const BULK_GROUP_BUDGET: nat := 100_000

  /** Every multiplicity is an integer to SQLite, and none is negative. */
  predicate Counts(s: Bag) {
    forall i | 0 <= i < |s| :: SetMembership.IsCount(s[i].m)
  }

  /** How many copies of a row with multiplicity `m` the statement unrolls. */
  function Unrolled(e: Expansion, m: int): int {
    match e
    case Plain => 0
    case Window => m
    case Limited(limit, offset) => if limit >= 0 then ApplyState.Least(m, limit + offset) else m
  }

  /** No joined multiplicity overflows; a window or LIMIT unrolls no row and no
      number of groups beyond its budgets. */
  predicate WithinBudgets(kind: Kind, bags: seq<Bag>, leftWidth: nat, rightWidth: nat)
    requires Sides(kind, bags)
  {
    match kind
    case Join(_, _, _, _) => Counts(EvalKeyed(kind, bags, leftWidth, rightWidth))
    case Group(_, _, _, expansion) => expansion.Plain? || GroupWithinBudgets(kind, bags[0])
    case _ => true
  }

  predicate GroupWithinBudgets(kind: Kind, s: Bag)
    requires kind.Group?
  {
    && (forall i | 0 <= i < |s| :: Unrolled(kind.expansion, s[i].m) <= ApplyState.BULK_MULTIPLICITY_BUDGET)
    && |KeysIn(kind, s)| <= BULK_GROUP_BUDGET
  }

  /** SELECT coalesce(max(__n),0). */
  method Peak(s: Bag) returns (peak: int)
    ensures forall i | 0 <= i < |s| :: s[i].m <= peak
    ensures if s == [] then peak == 0 else exists i :: 0 <= i < |s| && s[i].m == peak
  {
    peak := 0;
    for i := 0 to |s|
      invariant forall j | 0 <= j < i :: s[j].m <= peak
      invariant if i == 0 then peak == 0 else exists j :: 0 <= j < i && s[j].m == peak
    {
      if i == 0 || s[i].m > peak {
        peak := s[i].m;
      }
    }
  }

  /** A LIMIT may unroll every row when the rows it wants are few; otherwise, as for a
      window or a negative limit, no row may have too many copies. */
  predicate FewCopies(e: Expansion, s: Bag) {
    || (e.Limited? && e.limit >= 0 && e.limit + e.offset <= 1_000_000)
    || forall i | 0 <= i < |s| :: s[i].m <= 1_000_000
  }

  lemma WithinFewCopies(kind: Kind, s: Bag)
    requires kind.Group? && !kind.expansion.Plain?
    ensures GroupWithinBudgets(kind, s) <==> FewCopies(kind.expansion, s) && |KeysIn(kind, s)| <= 100_000
  {
    var e := kind.expansion;
    forall i | 0 <= i < |s| ensures Unrolled(e, s[i].m) <= 1_000_000 <==>
        (e.Limited? && e.limit >= 0 && e.limit + e.offset <= 1_000_000) || s[i].m <= 1_000_000 {
    }
  }

  /** Testing the largest multiplicity is testing every row. */
  method CheckGroup(kind: Kind, s: Bag) returns (ok: bool)
    requires kind.Group? && !kind.expansion.Plain?
    ensures ok <==> GroupWithinBudgets(kind, s)
    ensures ok <==> FewCopies(kind.expansion, s) && |KeysIn(kind, s)| <= 100_000
  {
    WithinFewCopies(kind, s);
    var peak := Peak(s);
    ok := Unrolled(kind.expansion, peak) <= ApplyState.BULK_MULTIPLICITY_BUDGET
    && |KeysIn(kind, s)| <= BULK_GROUP_BUDGET;
    if s == [] {
      assert Unrolled(kind.expansion, peak) <= 0;
    }
  }

  /** Fails exactly when a budget is exceeded; the join is checked once it is written. */
  method Execute(kind: Kind, bags: seq<Bag>, leftWidth: nat, rightWidth: nat) returns (ok: bool, out: Bag)
    requires Sides(kind, bags)
    ensures ok <==> WithinBudgets(kind, bags, leftWidth, rightWidth)
    ensures ok ==> out == EvalKeyed(kind, bags, leftWidth, rightWidth)
    ensures ok && kind.Join? ==>
              forall x :: Net(out, x) == JoinCopies(kind, bags[0], bags[1], leftWidth, rightWidth, x)
  {
    ok, out := true, [];
    if kind.Group? && !kind.expansion.Plain? {
      ok := CheckGroup(kind, bags[0]);
      if !ok { return; }
    }
    out := EvalKeyed(kind, bags, leftWidth, rightWidth);
    if kind.Join? {
      ok := Counts(out);
      forall x ensures Net(out, x) == JoinCopies(kind, bags[0], bags[1], leftWidth, rightWidth, x) {
        EvaluatedJoin(kind, bags[0], bags[1], leftWidth, rightWidth, x);
      }
    }
  }
}

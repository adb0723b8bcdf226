/** The statements of a delete-and-rederive pass: what each inserts, deletes or
    selects, and what that means for the keys the tables hold. */
module FixpointStatements {
  import opened Rows
  import opened Bags
  import opened Datalog
  import opened Tables
  import opened Queries
  import opened Rederive

  const BULK_ROUND_BUDGET: nat := 100_000

  /** One input as the node reads it: the current rows, and the pending delta. */
  datatype Side = Side(current: Bag, delta: Bag)

  /** The delta leads from an actual bag to the current one. */
  ghost predicate SideOk(s: Side) {
    Positive(s.current) && forall r :: Net(s.current, r) >= Net(s.delta, r)
  }

  ghost predicate SidesOk(sides: seq<Side>) {
    forall s | 0 <= s < |sides| :: SideOk(sides[s])
  }

  ghost function BeforeSet(s: Side): iset<Row> {
    iset r | Net(s.current, r) - Net(s.delta, r) > 0
  }

  ghost function AfterSet(s: Side): iset<Row> {
    iset r | Net(s.current, r) > 0
  }

  ghost function Before(sides: seq<Side>): (ins: Inputs)
    ensures |ins| == |sides|
  {
    seq(|sides|, s requires 0 <= s < |sides| => BeforeSet(sides[s]))
  }

  ghost function After(sides: seq<Side>): (ins: Inputs)
    ensures |ins| == |sides|
  {
    seq(|sides|, s requires 0 <= s < |sides| => AfterSet(sides[s]))
  }

  /** The before image: current minus delta, grouped, where anything is left. */
  function BeforeRows(s: Side): seq<Row> {
    Bags.RowsOf(Consolidate(s.current + Negated(s.delta)))
  }

  function CurrentRows(s: Side): seq<Row> {
    Bags.RowsOf(s.current)
  }

  function BeforeReads(sides: seq<Side>): (reads_: seq<seq<Row>>)
    ensures |reads_| == |sides|
  {
    seq(|sides|, s requires 0 <= s < |sides| => BeforeRows(sides[s]))
  }

  function CurrentReads(sides: seq<Side>): (reads_: seq<seq<Row>>)
    ensures |reads_| == |sides|
  {
    seq(|sides|, s requires 0 <= s < |sides| => CurrentRows(sides[s]))
  }

  function FilterRows(rows: seq<Row>, p: Row -> bool): (kept: seq<Row>)
    ensures forall r :: r in kept <==> r in rows && p(r)
  {
    if rows == [] then []
    else
      assert rows == [rows[0]] + rows[1..];
      (if p(rows[0]) then [rows[0]] else []) + FilterRows(rows[1..], p)
  }

  lemma {:induction false} FilterNoDuplicates(rows: seq<Row>, p: Row -> bool)
    requires NoDuplicates(rows)
    ensures NoDuplicates(FilterRows(rows, p))
  {
    if rows != [] {
      FilterNoDuplicates(rows[1..], p);
      var rest := FilterRows(rows[1..], p);
      forall j | 0 <= j < |rest| ensures rest[j] != rows[0] {
        assert rest[j] in rows[1..];
        var i :| 0 <= i < |rows[1..]| && rows[1..][i] == rest[j];
        assert rows[i + 1] == rest[j];
      }
      assert [] + rest == rest;
    }
  }

  lemma {:induction false} FilterKeys(rows: seq<Row>, key: Row -> Row, p: Row -> bool, k: Row, pass: bool)
    requires forall r | r in rows && key(r) == k :: p(r) == pass
    ensures HasKeyOf(FilterRows(rows, p), key, k) <==> HasKeyOf(rows, key, k) && pass
  {
    var kept := FilterRows(rows, p);
    if i :| 0 <= i < |kept| && key(kept[i]) == k {
      assert kept[i] in rows;
      var j :| 0 <= j < |rows| && rows[j] == kept[i];
    }
    if j :| 0 <= j < |rows| && key(rows[j]) == k {
      assert rows[j] in rows;
      if pass {
        assert rows[j] in kept;
        var i :| 0 <= i < |kept| && kept[i] == rows[j];
      }
    }
  }

  /** Rows whose last copy the batch removed. */
  function LeftRows(s: Side): seq<Row> {
    FilterRows(Bags.RowsOf(Consolidate(s.delta)), r => Net(s.delta, r) < 0 && Net(s.current, r) == 0)
  }

  /** Rows whose first copy the batch added. */
  function ArrivedRows(s: Side): seq<Row> {
    FilterRows(Bags.RowsOf(Consolidate(s.delta)), r => Net(s.delta, r) > 0 && Net(s.current, r) == Net(s.delta, r))
  }

  lemma ConsolidateRows(s: Bag, r: Row)
    ensures r in Bags.RowsOf(Consolidate(s)) <==> Net(s, r) != 0
  {
    var t := Consolidate(s);
    NetTotals(Distinct(Bags.RowsOf(s)), s, r);
    if r in Bags.RowsOf(t) {
      var i :| 0 <= i < |t| && Bags.RowsOf(t)[i] == r;
      assert t[i].row == r;
    } else {
      NetAbsent(t, r);
      if r !in Bags.RowsOf(s) { NetAbsent(s, r); }
    }
  }

  /** Reading current minus delta reads the rows that were there before. */
  lemma BeforeImage(s: Side)
    requires SideOk(s)
    ensures RowSet(BeforeRows(s)) == BeforeSet(s)
    ensures RowSet(CurrentRows(s)) == AfterSet(s)
  {
    var z := s.current + Negated(s.delta);
    forall r ensures r in BeforeRows(s) <==> Net(s.current, r) - Net(s.delta, r) > 0 {
      ConsolidateRows(z, r);
      NetAppend(s.current, Negated(s.delta), r);
      NetNegated(s.delta, r);
    }
    forall r ensures r in CurrentRows(s) <==> Net(s.current, r) > 0 {
      NetPositive(s.current, r);
    }
  }

  /** `fill_left` and `fill_arrived` find exactly the rows whose presence changed. */
  lemma SplitExact(s: Side)
    requires SideOk(s)
    ensures RowSet(LeftRows(s)) == BeforeSet(s) - AfterSet(s)
    ensures RowSet(ArrivedRows(s)) == AfterSet(s) - BeforeSet(s)
  {
    forall r ensures r in LeftRows(s) <==> r in BeforeSet(s) && r !in AfterSet(s) {
      ConsolidateRows(s.delta, r);
      NetPositive(s.current, r);
    }
    forall r ensures r in ArrivedRows(s) <==> r in AfterSet(s) && r !in BeforeSet(s) {
      ConsolidateRows(s.delta, r);
      NetPositive(s.current, r);
    }
  }

  lemma ReadsRepresent(sides: seq<Side>)
    requires SidesOk(sides)
    ensures Represents(BeforeReads(sides), Before(sides))
    ensures Represents(CurrentReads(sides), After(sides))
  {
    forall s | 0 <= s < |sides|
      ensures RowSet(BeforeReads(sides)[s]) == Before(sides)[s] && RowSet(CurrentReads(sides)[s]) == After(sides)[s] {
      BeforeImage(sides[s]);
    }
  }

  /** What member rules conclude from members in `from`. */
  ghost function Steps(rules: seq<Rule>, ins: Inputs, from: iset<Row>): iset<Row> {
    iset x | Stepped(rules, ins, from, x)
  }

  ghost predicate Stepped(rules: seq<Rule>, ins: Inputs, from: iset<Row>, x: Row) {
    exists p :: p in from && Edge(rules, ins, p, x)
  }

  /** What the first `n` member rules conclude from members in `from`. */
  ghost predicate SteppedBy(rules: seq<Rule>, n: nat, ins: Inputs, from: iset<Row>, x: Row) {
    exists r :: 0 <= r < n && r < |rules| && HasMember(rules[r]) && RuleConcludes(rules[r], ins, from, x)
  }

  ghost function StepsBy(rules: seq<Rule>, n: nat, ins: Inputs, from: iset<Row>): iset<Row> {
    iset x | SteppedBy(rules, n, ins, from, x)
  }

  lemma AllStepsTaken(rules: seq<Rule>, sides: nat, ins: Inputs, from: iset<Row>)
    requires WellFormed(rules, sides)
    ensures StepsBy(rules, |rules|, ins, from) == Steps(rules, ins, from)
  {
    forall x ensures SteppedBy(rules, |rules|, ins, from, x) <==> Stepped(rules, ins, from, x) {
      if SteppedBy(rules, |rules|, ins, from, x) {
        var r :| 0 <= r < |rules| && HasMember(rules[r]) && RuleConcludes(rules[r], ins, from, x);
        RuleConcludesIsEdge(rules, sides, r, ins, from, x);
      }
      if Stepped(rules, ins, from, x) {
        var p :| p in from && Edge(rules, ins, p, x);
        EdgeIsRuleConcludes(rules, ins, from, p, x);
      }
    }
  }

  lemma NextRule(rules: seq<Rule>, n: nat, ins: Inputs, from: iset<Row>)
    requires n < |rules|
    ensures StepsBy(rules, n + 1, ins, from) ==
            StepsBy(rules, n, ins, from) + iset x | HasMember(rules[n]) && RuleConcludes(rules[n], ins, from, x)
  {
    forall x ensures SteppedBy(rules, n + 1, ins, from, x) <==>
        SteppedBy(rules, n, ins, from, x) || (HasMember(rules[n]) && RuleConcludes(rules[n], ins, from, x)) {
    }
  }

  /** Every stored rule may be fed representatives. */
  ghost predicate RulesOk(rules: seq<Rule>, sides: nat, key: Row -> Row) {
    && WellFormed(rules, sides)
    && Idempotent(key)
    && forall r | 0 <= r < |rules| :: Respects(rules[r], key)
  }

  lemma CanonWellFormed(rules: seq<Rule>, sides: nat, key: Row -> Row)
    requires WellFormed(rules, sides)
    ensures WellFormed(CanonAll(rules, key), sides)
  {
    forall r | 0 <= r < |rules| ensures WellFormedRule(CanonAll(rules, key)[r], sides) {
      assert WellFormedRule(rules[r], sides);
    }
  }

  /** The rows a derive statement selects when its member occurrence reads `members`. */
  function DerivedRows(rule: Rule, reads_: seq<seq<Row>>, members: seq<Row>): seq<Row>
    requires WellFormedRule(rule, |reads_|)
  {
    Evaluate(rule, Sources(rule, reads_, members))
  }

  /** The same with occurrence `at` reading the arrived or left table. */
  function DerivedRowsAt(rule: Rule, reads_: seq<seq<Row>>, members: seq<Row>, at: nat, delta: seq<Row>): seq<Row>
    requires WellFormedRule(rule, |reads_|) && at < |rule.occurrences|
  {
    Evaluate(rule, Sources(rule, reads_, members)[at := delta])
  }

  ghost function RuleConclusions(rule: Rule, ins: Inputs, m: iset<Row>): iset<Row> {
    iset x | RuleConcludes(rule, ins, m, x)
  }

  ghost function RuleConclusionsAt(rule: Rule, ins: Inputs, m: iset<Row>, at: nat, delta: iset<Row>): iset<Row> {
    iset x | RuleConcludesAt(rule, ins, m, at, delta, x)
  }

  lemma DerivedKeys(rule: Rule, key: Row -> Row, reads_: seq<seq<Row>>, ins: Inputs, members: seq<Row>)
    requires WellFormedRule(rule, |reads_|) && Respects(rule, key) && Idempotent(key) && Represents(reads_, ins)
    ensures KeysOf(DerivedRows(rule, reads_, members), key) ==
              RuleConclusions(Canon(rule, key), ins, KeysOf(members, key))
  {
    forall x
      ensures HasKeyOf(DerivedRows(rule, reads_, members), key, x) <==>
                RuleConcludes(Canon(rule, key), ins, KeysOf(members, key), x) {
      EvaluateConcludes(rule, key, reads_, ins, members, x);
    }
  }

  lemma DerivedKeysAt(rule: Rule, key: Row -> Row, reads_: seq<seq<Row>>, ins: Inputs, members: seq<Row>, at: nat,
                      delta: seq<Row>)
    requires WellFormedRule(rule, |reads_|) && Respects(rule, key) && Idempotent(key) && Represents(reads_, ins)
    requires at < |rule.occurrences| && rule.occurrences[at].Input? && RowSet(delta) <= ins[rule.occurrences[at].side]
    ensures KeysOf(DerivedRowsAt(rule, reads_, members, at, delta), key) ==
            RuleConclusionsAt(Canon(rule, key), ins, KeysOf(members, key), at, RowSet(delta))
  {
    forall x ensures HasKeyOf(DerivedRowsAt(rule, reads_, members, at, delta), key, x)
                <==> RuleConcludesAt(Canon(rule, key), ins, KeysOf(members, key), at, RowSet(delta), x) {
      EvaluateConcludesAt(rule, key, reads_, ins, members, at, delta, x);
    }
  }

  lemma RangeReads(t: Table, key: Row -> Row, lo: int, hi: int)
    ensures KeysOf(EntryRows(Range(t.entries, lo, hi)), key) == KeysBetween(t, key, lo, hi)
  {
    forall k
      ensures HasKeyOf(EntryRows(Range(t.entries, lo, hi)), key, k) <==> HasKeyBetween(t.entries, key, lo, hi, k) {
      RangeKeys(t.entries, key, lo, hi, k);
    }
  }

  lemma EntryReads(t: Table, key: Row -> Row)
    ensures KeysOf(EntryRows(t.entries), key) == Keys(t, key)
  {
    forall k ensures HasKeyOf(EntryRows(t.entries), key, k) <==> HasKey(t.entries, key, k) {
      if HasKeyOf(EntryRows(t.entries), key, k) {
        var i :| 0 <= i < |t.entries| && key(EntryRows(t.entries)[i]) == k;
      }
      if HasKey(t.entries, key, k) {
        var i :| 0 <= i < |t.entries| && key(t.entries[i].row) == k;
        assert key(EntryRows(t.entries)[i]) == k;
      }
    }
  }

  /** Rows whose key the table holds: the derive statements' EXISTS filter. */
  function OnlyPresent(t: Table, key: Row -> Row, rows: seq<Row>): seq<Row> {
    FilterRows(rows, r => HasKey(t.entries, key, key(r)))
  }

  lemma OnlyPresentKeys(t: Table, key: Row -> Row, rows: seq<Row>)
    ensures KeysOf(OnlyPresent(t, key, rows), key) == KeysOf(rows, key) * Keys(t, key)
  {
    forall k
      ensures HasKeyOf(OnlyPresent(t, key, rows), key, k) <==> HasKeyOf(rows, key, k) && HasKey(t.entries, key, k) {
      FilterKeys(rows, key, r => HasKey(t.entries, key, key(r)), k, HasKey(t.entries, key, k));
    }
  }

  /** One statement of `round_derives`. */
  function RoundInsert(t: Table, key: Row -> Row, rule: Rule, reads_: seq<seq<Row>>, lo: int, hi: int): Table
    requires WellFormedRule(rule, |reads_|)
  {
    InsertAll(t, key, DerivedRows(rule, reads_, EntryRows(Range(t.entries, lo, hi))))
  }

  /** One statement of `delete_derives`. */
  function DeleteInsert(t: Table, all: Table, key: Row -> Row, rule: Rule, reads_: seq<seq<Row>>, lo: int,
                        hi: int): Table
    requires WellFormedRule(rule, |reads_|)
  {
    InsertAll(t, key, OnlyPresent(all, key, DerivedRows(rule, reads_, EntryRows(Range(t.entries, lo, hi)))))
  }

  /** What the first `n` member rules have added to `t0` from its rows in (lo, hi]. */
  ghost predicate RoundTaken(t0: Table, t: Table, key: Row -> Row, rules: seq<Rule>, n: nat, ins: Inputs, lo: int,
                             hi: int) {
    && Tables.Valid(t, key) && Extends(t0, t)
    && Keys(t, key) == Keys(t0, key) + StepsBy(CanonAll(rules, key), n, ins, KeysBetween(t0, key, lo, hi))
  }

  lemma RuleTaken(t0: Table, t: Table, key: Row -> Row, rules: seq<Rule>, r: nat, reads_: seq<seq<Row>>, ins: Inputs,
                  lo: int, hi: int)
    requires RulesOk(rules, |reads_|, key) && r < |rules| && Represents(reads_, ins) && hi <= t0.sequence
    requires RoundTaken(t0, t, key, rules, r, ins, lo, hi)
    ensures !HasMember(rules[r]) ==> RoundTaken(t0, t, key, rules, r + 1, ins, lo, hi)
    ensures HasMember(rules[r]) ==>
              RoundTaken(t0, RoundInsert(t, key, rules[r], reads_, lo, hi), key, rules, r + 1, ins, lo, hi)
  {
    var from := KeysBetween(t0, key, lo, hi);
    NextRule(CanonAll(rules, key), r, ins, from);
    if HasMember(rules[r]) {
      assert WellFormedRule(rules[r], |reads_|);
      var members := EntryRows(Range(t.entries, lo, hi));
      var rows := DerivedRows(rules[r], reads_, members);
      KeysBetweenStable(t0, t, key, lo, hi);
      RangeReads(t, key, lo, hi);
      DerivedKeys(rules[r], key, reads_, ins, members);
      InsertAllKeepsTable(t, key, rows);
      ExtendsTransitive(t0, t, InsertAll(t, key, rows));
    }
  }

  /** What the first `n` member rules have added to the work table `t0` from its
      rows in (lo, hi], kept where the head is in `all`. */
  ghost predicate DeleteTaken(t0: Table, t: Table, all: Table, key: Row -> Row, rules: seq<Rule>, n: nat, ins: Inputs,
                              lo: int, hi: int) {
    && Tables.Valid(t, key) && Extends(t0, t)
    && Keys(t, key) ==
       Keys(t0, key) + StepsBy(CanonAll(rules, key), n, ins, KeysBetween(t0, key, lo, hi)) * Keys(all, key)
  }

  lemma DeleteRuleTaken(t0: Table, t: Table, all: Table, key: Row -> Row, rules: seq<Rule>, r: nat,
                        reads_: seq<seq<Row>>, ins: Inputs, lo: int, hi: int)
    requires RulesOk(rules, |reads_|, key) && r < |rules| && Represents(reads_, ins) && hi <= t0.sequence
    requires DeleteTaken(t0, t, all, key, rules, r, ins, lo, hi)
    ensures !HasMember(rules[r]) ==> DeleteTaken(t0, t, all, key, rules, r + 1, ins, lo, hi)
    ensures HasMember(rules[r]) ==>
              DeleteTaken(t0, DeleteInsert(t, all, key, rules[r], reads_, lo, hi), all, key, rules, r + 1, ins, lo, hi)
  {
    var from := KeysBetween(t0, key, lo, hi);
    NextRule(CanonAll(rules, key), r, ins, from);
    if HasMember(rules[r]) {
      assert WellFormedRule(rules[r], |reads_|);
      var members := EntryRows(Range(t.entries, lo, hi));
      var derived := DerivedRows(rules[r], reads_, members);
      KeysBetweenStable(t0, t, key, lo, hi);
      RangeReads(t, key, lo, hi);
      DerivedKeys(rules[r], key, reads_, ins, members);
      OnlyPresentKeys(all, key, derived);
      InsertAllKeepsTable(t, key, OnlyPresent(all, key, derived));
      ExtendsTransitive(t0, t, InsertAll(t, key, OnlyPresent(all, key, derived)));
    }
  }

  // ------------------------------------------------------------------- rounds

  /** Rows added to a table carry keys it did not hold. */
  lemma NewKeys(t: Table, u: Table, key: Row -> Row, lo: int)
    requires Tables.Valid(t, key) && Tables.Valid(u, key) && Extends(t, u) && lo <= t.sequence
    ensures KeysBetween(u, key, lo, u.sequence) <= KeysBetween(t, key, lo, t.sequence) + (Keys(u, key) - Keys(t, key))
  {
    forall k | k in KeysBetween(u, key, lo, u.sequence)
      ensures k in KeysBetween(t, key, lo, t.sequence) + (Keys(u, key) - Keys(t, key))
    {
      var i :| 0 <= i < |u.entries| && lo < u.entries[i].id <= u.sequence && key(u.entries[i].row) == k;
      if i < |t.entries| {
        assert u.entries[..|t.entries|][i] == t.entries[i];
        assert HasKeyBetween(t.entries, key, lo, t.sequence, k);
      } else {
        NewKeyIsNew(t, u, key, i);
        assert HasKey(u.entries, key, k);
      }
    }
  }

  lemma StepsMonotone(rules: seq<Rule>, ins: Inputs, from: iset<Row>, from': iset<Row>)
    requires from <= from'
    ensures Steps(rules, ins, from) <= Steps(rules, ins, from')
  {
    forall x | x in Steps(rules, ins, from) ensures x in Steps(rules, ins, from') {
      var p :| p in from && Edge(rules, ins, p, x);
    }
  }

  lemma StepsUnion(rules: seq<Rule>, ins: Inputs, f: iset<Row>, g: iset<Row>)
    ensures Steps(rules, ins, f + g) == Steps(rules, ins, f) + Steps(rules, ins, g)
  {
    StepsMonotone(rules, ins, f, f + g);
    StepsMonotone(rules, ins, g, f + g);
    forall x | x in Steps(rules, ins, f + g) ensures x in Steps(rules, ins, f) + Steps(rules, ins, g) {
      var p :| p in f + g && Edge(rules, ins, p, x);
      assert p in f ==> Stepped(rules, ins, f, x);
    }
  }

  /** A round stays inside `bound` when `bound` is closed outside the rows up to `lo0`. */
  lemma RoundStaysWithin(t: Table, u: Table, key: Row -> Row, rules: seq<Rule>, ins: Inputs, lo0: int, lo: int,
                         hi: int, bound: iset<Row>)
    requires Tables.Valid(t, key) && Tables.Valid(u, key) && Extends(t, u)
    requires 0 <= lo0 <= lo && lo0 <= t.sequence && hi <= t.sequence
    requires Keys(u, key) == Keys(t, key) + Steps(rules, ins, KeysBetween(t, key, lo, hi))
    requires KeysBetween(t, key, lo0, t.sequence) <= bound
    requires StepClosed(rules, ins, Outside(KeysBetween(t, key, 0, lo0)), bound)
    ensures KeysBetween(u, key, lo0, u.sequence) <= bound
    ensures Keys(u, key) <= Keys(t, key) + bound
  {
    NewKeys(t, u, key, lo0);
    forall x | x in Keys(u, key) && x !in Keys(t, key) ensures x in bound {
      var p :| p in KeysBetween(t, key, lo, hi) && Edge(rules, ins, p, x);
      var i :| 0 <= i < |t.entries| && lo < t.entries[i].id <= hi && key(t.entries[i].row) == p;
      assert HasKeyBetween(t.entries, key, lo0, t.sequence, p);
      BetweenIsStored(t, key, 0, lo0);
    }
  }

  /** After a round, the members up to `hi` have been stepped from. */
  lemma RoundProcesses(t: Table, u: Table, key: Row -> Row, rules: seq<Rule>, ins: Inputs, lo0: int, lo: int, hi: int)
    requires Tables.Valid(t, key) && Extends(t, u) && lo0 <= lo <= hi <= t.sequence
    requires Keys(u, key) == Keys(t, key) + Steps(rules, ins, KeysBetween(t, key, lo, hi))
    requires Steps(rules, ins, KeysBetween(t, key, lo0, lo)) <= Keys(t, key)
    ensures Steps(rules, ins, KeysBetween(u, key, lo0, hi)) <= Keys(u, key)
  {
    KeysBetweenStable(t, u, key, lo0, hi);
    KeysSplit(t, key, lo0, lo, hi);
    StepsUnion(rules, ins, KeysBetween(t, key, lo0, lo), KeysBetween(t, key, lo, hi));
  }

  // -------------------------------------------------- statements bound to a delta

  /** Some statement before (r, at) derives `x`. */
  ghost predicate ViaBefore(rules: seq<Rule>, r: nat, at: nat, ins: Inputs, m: iset<Row>, side: nat, delta: iset<Row>,
                            x: Row) {
    exists r': nat, at': nat ::
      r' < |rules| && (r' < r || (r' == r && at' < at)) && RuleConcludesOn(rules[r'], ins, m, side, at', delta, x)
  }

  ghost function ViaSoFar(rules: seq<Rule>, r: nat, at: nat, ins: Inputs, m: iset<Row>, side: nat,
                          delta: iset<Row>): iset<Row> {
    iset x | ViaBefore(rules, r, at, ins, m, side, delta, x)
  }

  ghost function Via(rules: seq<Rule>, ins: Inputs, m: iset<Row>, side: nat, delta: iset<Row>): iset<Row> {
    iset x | ConcludesVia(rules, ins, m, side, delta, x)
  }

  lemma AllViaTaken(rules: seq<Rule>, sides: nat, ins: Inputs, m: iset<Row>, side: nat, delta: iset<Row>)
    requires WellFormed(rules, sides)
    ensures ViaSoFar(rules, |rules|, 0, ins, m, side, delta) == Via(rules, ins, m, side, delta)
  {
    forall x
      ensures ViaBefore(rules, |rules|, 0, ins, m, side, delta, x) <==> ConcludesVia(rules, ins, m, side, delta, x) {
      RuleConcludesOnIsVia(rules, sides, ins, m, side, delta, x);
    }
  }

  lemma NextVia(rules: seq<Rule>, r: nat, at: nat, ins: Inputs, m: iset<Row>, side: nat, delta: iset<Row>)
    requires r < |rules| && at < |rules[r].occurrences|
    ensures rules[r].occurrences[at] != Input(side) ==>
              ViaSoFar(rules, r, at + 1, ins, m, side, delta) == ViaSoFar(rules, r, at, ins, m, side, delta)
    ensures rules[r].occurrences[at] == Input(side) ==>
              ViaSoFar(rules, r, at + 1, ins, m, side, delta) ==
              ViaSoFar(rules, r, at, ins, m, side, delta) + RuleConclusionsAt(rules[r], ins, m, at, delta)
  {
    forall x ensures ViaBefore(rules, r, at + 1, ins, m, side, delta, x) <==>
        ViaBefore(rules, r, at, ins, m, side, delta, x) || RuleConcludesOn(rules[r], ins, m, side, at, delta, x) {
      NextViaAt(rules, r, at, ins, m, side, delta, x);
    }
    forall x ensures x in RuleConclusionsAt(rules[r], ins, m, at, delta) && rules[r].occurrences[at] == Input(side) <==>
        RuleConcludesOn(rules[r], ins, m, side, at, delta, x) {
    }
  }

  lemma NextViaAt(rules: seq<Rule>, r: nat, at: nat, ins: Inputs, m: iset<Row>, side: nat, delta: iset<Row>, x: Row)
    requires r < |rules| && at < |rules[r].occurrences|
    ensures ViaBefore(rules, r, at + 1, ins, m, side, delta, x) <==>
            ViaBefore(rules, r, at, ins, m, side, delta, x) || RuleConcludesOn(rules[r], ins, m, side, at, delta, x)
  {
    if r': nat, at': nat :| r' < |rules| && (r' < r || (r' == r && at' < at + 1))
                                 && RuleConcludesOn(rules[r'], ins, m, side, at', delta, x) {
      if r' < r || at' < at {
        assert ViaBefore(rules, r, at, ins, m, side, delta, x);
      }
    }
    if r': nat, at': nat :| r' < |rules| && (r' < r || (r' == r && at' < at))
                                 && RuleConcludesOn(rules[r'], ins, m, side, at', delta, x) {
      assert ViaBefore(rules, r, at + 1, ins, m, side, delta, x);
    }
  }

  lemma NextViaRule(rules: seq<Rule>, r: nat, ins: Inputs, m: iset<Row>, side: nat, delta: iset<Row>)
    requires r < |rules|
    ensures ViaSoFar(rules, r + 1, 0, ins, m, side, delta) ==
              ViaSoFar(rules, r, |rules[r].occurrences|, ins, m, side, delta)
  {
    forall x
      ensures ViaBefore(rules, r + 1, 0, ins, m, side, delta, x) <==>
                ViaBefore(rules, r, |rules[r].occurrences|, ins, m, side, delta, x) {
      if r': nat, at': nat :| r' < |rules| && r' < r + 1 && RuleConcludesOn(rules[r'], ins, m, side, at', delta, x) {
        assert at' < |rules[r'].occurrences|;
      }
    }
  }

  /** One statement of `left_derives`: heads of departed rows that are members. */
  function LeftInsert(work: Table, all: Table, key: Row -> Row, rule: Rule, reads_: seq<seq<Row>>, at: nat,
                      left: seq<Row>): Table
    requires WellFormedRule(rule, |reads_|) && at < |rule.occurrences|
  {
    InsertAll(work, key, OnlyPresent(all, key, DerivedRowsAt(rule, reads_, EntryRows(all.entries), at, left)))
  }

  /** One statement of `arrive_derives`. */
  function ArriveInsert(all: Table, key: Row -> Row, rule: Rule, reads_: seq<seq<Row>>, at: nat,
                        arrived: seq<Row>): Table
    requires WellFormedRule(rule, |reads_|) && at < |rule.occurrences|
  {
    InsertAll(all, key, DerivedRowsAt(rule, reads_, EntryRows(all.entries), at, arrived))
  }

  ghost predicate LeftTaken(t0: Table, t: Table, all: Table, key: Row -> Row, rules: seq<Rule>, r: nat, at: nat,
                            ins: Inputs, side: nat, delta: iset<Row>) {
    && Tables.Valid(t, key)
    && Keys(t, key) == Keys(t0, key) + ViaSoFar(CanonAll(rules, key), r, at, ins, Keys(all, key), side,
                                                delta) * Keys(all, key)
  }

  lemma LeftStatementTaken(t0: Table, t: Table, all: Table, key: Row -> Row, rules: seq<Rule>, r: nat, at: nat,
                           reads_: seq<seq<Row>>, ins: Inputs, side: nat, left: seq<Row>)
    requires RulesOk(rules, |reads_|, key) && Represents(reads_, ins) && side < |ins| && RowSet(left) <= ins[side]
    requires r < |rules| && at < |rules[r].occurrences|
    requires LeftTaken(t0, t, all, key, rules, r, at, ins, side, RowSet(left))
    ensures rules[r].occurrences[at] != Input(side) ==>
              LeftTaken(t0, t, all, key, rules, r, at + 1, ins, side, RowSet(left))
    ensures rules[r].occurrences[at] == Input(side) ==>
              LeftTaken(t0, LeftInsert(t, all, key, rules[r], reads_, at, left), all, key, rules, r, at + 1, ins,
                        side, RowSet(left))
  {
    NextVia(CanonAll(rules, key), r, at, ins, Keys(all, key), side, RowSet(left));
    if rules[r].occurrences[at] == Input(side) {
      var derived := DerivedRowsAt(rules[r], reads_, EntryRows(all.entries), at, left);
      EntryReads(all, key);
      DerivedKeysAt(rules[r], key, reads_, ins, EntryRows(all.entries), at, left);
      OnlyPresentKeys(all, key, derived);
      InsertAllKeepsTable(t, key, OnlyPresent(all, key, derived));
    }
  }

  /** The arrived statements so far have stored their conclusions from `kept`,
      and nothing outside `kept` and `bound`. */
  ghost predicate ArriveTaken(t0: Table, t: Table, key: Row -> Row, rules: seq<Rule>, r: nat, at: nat, ins: Inputs,
                              side: nat, delta: iset<Row>,
                              kept: iset<Row>, bound: iset<Row>) {
    && Tables.Valid(t, key) && Extends(t0, t)
    && kept <= Keys(t, key) <= kept + bound
    && ViaSoFar(CanonAll(rules, key), r, at, ins, kept, side, delta) <= Keys(t, key)
  }

  /** A conclusion through an arrived row is drawn from kept members or from new ones. */
  lemma ArriveConclusion(rules: seq<Rule>, sides: nat, r: nat, at: nat, ins: Inputs, m: iset<Row>, side: nat,
                         delta: iset<Row>,
                         kept: iset<Row>, bound: iset<Row>, x: Row)
    requires WellFormed(rules, sides) && r < |rules| && at < |rules[r].occurrences|
    requires rules[r].occurrences[at] == Input(side)
    requires m <= kept + bound && StepClosed(rules, ins, Outside(kept), bound)
    requires Via(rules, ins, kept, side, delta) <= kept + bound
    requires RuleConcludesAt(rules[r], ins, m, at, delta, x)
    ensures x in kept + bound
  {
    var t :| Fires(rules[r], t, ins) && MembersIn(rules[r], t, m) && at < |t| && t[at] in delta
             && rules[r].head(t) == x;
    if i :| 0 <= i < |t| && rules[r].occurrences[i] == Member && t[i] in bound {
      ReadsItsMember(rules[r], t, i);
      assert Edge(rules, ins, t[i], x);
    } else {
      assert MembersIn(rules[r], t, kept);
      assert RuleConcludesAt(rules[r], ins, kept, at, delta, x);
      assert RuleConcludesOn(rules[r], ins, kept, side, at, delta, x);
      RuleConcludesOnIsVia(rules, sides, ins, kept, side, delta, x);
    }
  }

  lemma RuleConclusionsAtMonotone(rule: Rule, ins: Inputs, m: iset<Row>, m': iset<Row>, at: nat, delta: iset<Row>)
    requires m <= m'
    ensures RuleConclusionsAt(rule, ins, m, at, delta) <= RuleConclusionsAt(rule, ins, m', at, delta)
  {
    forall x | x in RuleConclusionsAt(rule, ins, m, at, delta)
      ensures x in RuleConclusionsAt(rule, ins, m', at, delta) {
      var t :| Fires(rule, t, ins) && MembersIn(rule, t, m) && at < |t| && t[at] in delta && rule.head(t) == x;
      assert MembersIn(rule, t, m');
    }
  }

  lemma ArriveStatementTaken(t0: Table, t: Table, key: Row -> Row, rules: seq<Rule>, r: nat, at: nat,
                             reads_: seq<seq<Row>>, ins: Inputs, side: nat, arrived: seq<Row>,
                              kept: iset<Row>, bound: iset<Row>)
    requires RulesOk(rules, |reads_|, key) && Represents(reads_, ins) && side < |ins| && RowSet(arrived) <= ins[side]
    requires r < |rules| && at < |rules[r].occurrences|
    requires StepClosed(CanonAll(rules, key), ins, Outside(kept), bound)
    requires Via(CanonAll(rules, key), ins, kept, side, RowSet(arrived)) <= kept + bound
    requires ArriveTaken(t0, t, key, rules, r, at, ins, side, RowSet(arrived), kept, bound)
    ensures rules[r].occurrences[at] != Input(side) ==>
              ArriveTaken(t0, t, key, rules, r, at + 1, ins, side, RowSet(arrived), kept, bound)
    ensures rules[r].occurrences[at] == Input(side) ==>
              ArriveTaken(t0, ArriveInsert(t, key, rules[r], reads_, at, arrived), key, rules, r, at + 1, ins, side,
                          RowSet(arrived), kept, bound)
  {
    var canon, delta := CanonAll(rules, key), RowSet(arrived);
    NextVia(canon, r, at, ins, kept, side, delta);
    if rules[r].occurrences[at] == Input(side) {
      var derived := DerivedRowsAt(rules[r], reads_, EntryRows(t.entries), at, arrived);
      EntryReads(t, key);
      DerivedKeysAt(rules[r], key, reads_, ins, EntryRows(t.entries), at, arrived);
      InsertAllKeepsTable(t, key, derived);
      ExtendsTransitive(t0, t, InsertAll(t, key, derived));
      RuleConclusionsAtMonotone(canon[r], ins, kept, Keys(t, key), at, delta);
      CanonWellFormed(rules, |reads_|, key);
      forall x | x in RuleConclusionsAt(canon[r], ins, Keys(t, key), at, delta) ensures x in kept + bound {
        ArriveConclusion(canon, |reads_|, r, at, ins, Keys(t, key), side, delta, kept, bound, x);
      }
    }
  }

  // --------------------------------------------------------- deleting and restoring

  /** The entries of `t0` are split between what is still stored and `deleted`. */
  ghost predicate DeletedOk(t0: Table, t: Table, deleted: seq<Entry>, key: Row -> Row) {
    && t.sequence == t0.sequence && Unique(deleted, key)
    && (forall e :: e in t0.entries <==> e in t.entries || e in deleted)
    && (forall e, d | e in t.entries && d in deleted :: key(e.row) != key(d.row))
  }

  /** DELETE of the rows whose key `rows` holds. */
  function DropRows(t: Table, key: Row -> Row, rows: seq<Row>): Table {
    Table(Keep(t.entries, r => !HasKeyOf(rows, key, key(r))), t.sequence)
  }

  /** The entries such a DELETE removes: `collect_deleted`. */
  function Collect(t: Table, key: Row -> Row, rows: seq<Row>): seq<Entry> {
    Keep(t.entries, r => HasKeyOf(rows, key, key(r)))
  }

  lemma KeepKeys(entries: seq<Entry>, key: Row -> Row, p: Row -> bool, k: Row, pass: bool)
    requires forall r | key(r) == k :: p(r) == pass
    ensures HasKey(Keep(entries, p), key, k) <==> HasKey(entries, key, k) && pass
  {
    var kept := Keep(entries, p);
    if i :| 0 <= i < |kept| && key(kept[i].row) == k {
      assert kept[i] in entries;
      var j :| 0 <= j < |entries| && entries[j] == kept[i];
    }
    if j :| 0 <= j < |entries| && key(entries[j].row) == k {
      if pass {
        assert entries[j] in kept;
        var i :| 0 <= i < |kept| && kept[i] == entries[j];
      }
    }
  }

  lemma DropKeys(t: Table, key: Row -> Row, rows: seq<Row>)
    requires Tables.Valid(t, key)
    ensures Tables.Valid(DropRows(t, key, rows), key)
    ensures Keys(DropRows(t, key, rows), key) == Keys(t, key) - KeysOf(rows, key)
  {
    KeepValid(t.entries, t.sequence, key, r => !HasKeyOf(rows, key, key(r)));
    forall k
      ensures HasKey(DropRows(t, key, rows).entries, key, k) <==> HasKey(t.entries, key, k) && !HasKeyOf(rows, key, k) {
      KeepKeys(t.entries, key, r => !HasKeyOf(rows, key, key(r)), k, !HasKeyOf(rows, key, k));
    }
  }

  lemma UniqueAppend(a: seq<Entry>, b: seq<Entry>, key: Row -> Row)
    requires Unique(a, key) && Unique(b, key)
    requires forall x, y | x in a && y in b :: key(x.row) != key(y.row)
    ensures Unique(a + b, key)
  {
    var c := a + b;
    forall i, j | 0 <= i < j < |c| ensures key(c[i].row) != key(c[j].row) {
      if i < |a| <= j {
        assert c[i] in a && c[j] in b;
      }
    }
  }

  lemma DropKeepsSplit(t0: Table, t: Table, deleted: seq<Entry>, key: Row -> Row, rows: seq<Row>)
    requires Tables.Valid(t, key) && DeletedOk(t0, t, deleted, key)
    ensures DeletedOk(t0, DropRows(t, key, rows), deleted + Collect(t, key, rows), key)
  {
    var gone := Collect(t, key, rows);
    KeepValid(t.entries, t.sequence, key, r => HasKeyOf(rows, key, key(r)));
    forall x, y | x in deleted && y in gone ensures key(x.row) != key(y.row) {
      assert y in t.entries;
    }
    UniqueAppend(deleted, gone, key);
    forall e, d | e in DropRows(t, key, rows).entries && d in deleted + gone ensures key(e.row) != key(d.row) {
      assert e in t.entries;
    }
  }

  /** `collect_deleted` and `drop_deleted_range` for the work rows in (lo, hi]. */
  lemma DropRange(t0: Table, t: Table, deleted: seq<Entry>, key: Row -> Row, work: Table, lo: int, hi: int)
    requires Tables.Valid(t, key) && DeletedOk(t0, t, deleted, key)
    ensures
      var rows := EntryRows(Range(work.entries, lo, hi));
      && Tables.Valid(DropRows(t, key, rows), key)
      && Keys(DropRows(t, key, rows), key) == Keys(t, key) - KeysBetween(work, key, lo, hi)
      && DeletedOk(t0, DropRows(t, key, rows), deleted + Collect(t, key, rows), key)
  {
    var rows := EntryRows(Range(work.entries, lo, hi));
    RangeReads(work, key, lo, hi);
    DropKeys(t, key, rows);
    DropKeepsSplit(t0, t, deleted, key, rows);
  }

  /** The delete loop: work rows up to `lo` have been dropped and stepped from. */
  ghost predicate DeleteInvariant(t0: Table, all: Table, work: Table, deleted: seq<Entry>, key: Row -> Row,
                                  rules: seq<Rule>, ins: Inputs,
                                  m: iset<Row>, seed: iset<Row>, lo: int) {
    && Tables.Valid(all, key) && Tables.Valid(work, key) && DeletedOk(t0, all, deleted, key)
    && lo <= work.sequence
    && Keys(all, key) == m - KeysBetween(work, key, 0, lo)
    && seed <= Keys(work, key) <= m * Reach(rules, ins, seed, m)
    && Steps(rules, ins, KeysBetween(work, key, 0, lo)) * m <= Keys(work, key)
  }

  lemma DeleteRoundKeeps(t0: Table, all: Table, all': Table, work: Table, work': Table, deleted: seq<Entry>,
                         deleted': seq<Entry>,
                         key: Row -> Row, rules: seq<Rule>, ins: Inputs, m: iset<Row>, seed: iset<Row>,
                          lo: int, hi: int)
    requires DeleteInvariant(t0, all, work, deleted, key, rules, ins, m, seed, lo) && 0 <= lo <= hi <= work.sequence
    requires Tables.Valid(all', key) && Tables.Valid(work', key) && DeletedOk(t0, all', deleted', key)
    requires Extends(work, work')
    requires Keys(all', key) == Keys(all, key) - KeysBetween(work, key, lo, hi)
    requires Keys(work', key) == Keys(work, key) + Steps(rules, ins, KeysBetween(work, key, lo, hi)) * Keys(all', key)
    ensures DeleteInvariant(t0, all', work', deleted', key, rules, ins, m, seed, hi)
  {
    var p, q := KeysBetween(work, key, 0, lo), KeysBetween(work, key, lo, hi);
    KeysBetweenStable(work, work', key, 0, hi);
    KeysSplit(work, key, 0, lo, hi);
    StepsUnion(rules, ins, p, q);
    BetweenIsStored(work, key, 0, lo);
    BetweenIsStored(work, key, lo, hi);
    forall x | x in Steps(rules, ins, q) && x in m ensures x in Reach(rules, ins, seed, m) {
      var y :| y in q && Edge(rules, ins, y, x);
      ReachStep(rules, ins, seed, m, y, x);
    }
  }

  lemma DeleteLoopStart(all: Table, work: Table, key: Row -> Row, rules: seq<Rule>, ins: Inputs)
    requires Tables.Valid(all, key) && Tables.Valid(work, key) && Keys(work, key) <= Keys(all, key)
    ensures DeleteInvariant(all, all, work, [], key, rules, ins, Keys(all, key), Keys(work, key), 0)
  {
    ReachStart(rules, ins, Keys(work, key), Keys(all, key));
    assert KeysBetween(work, key, 0, 0) == iset{};
    assert Steps(rules, ins, iset{}) == iset{};
  }

  /** A round that goes on has a row above the last one's. */
  lemma NewerRows(t: Table, u: Table, key: Row -> Row)
    requires Tables.Valid(u, key) && Extends(t, u)
    ensures |t.entries| <= |u.entries| && (|u.entries| == |t.entries| ==> MaxRowid(u) == MaxRowid(t))
  {
  }

  /** Work rows are members from before the pass. */
  lemma WorkFits(t0: Table, all: Table, work: Table, deleted: seq<Entry>, key: Row -> Row, rules: seq<Rule>,
                 ins: Inputs, m: iset<Row>, seed: iset<Row>, lo: int, universe: set<Row>)
    requires DeleteInvariant(t0, all, work, deleted, key, rules, ins, m, seed, lo)
    ensures RoundsFit(m, universe) ==> |work.entries| < BULK_ROUND_BUDGET
  {
    EntriesFit(work, key, m, universe);
  }

  lemma DeleteLoopDone(t0: Table, all: Table, work: Table, deleted: seq<Entry>, key: Row -> Row, rules: seq<Rule>,
                       ins: Inputs,
                       m: iset<Row>, seed: iset<Row>, lo: int)
    requires DeleteInvariant(t0, all, work, deleted, key, rules, ins, m, seed, lo) && MaxRowid(work) == lo
    ensures Keys(work, key) == Reach(rules, ins, seed, m) && Keys(all, key) == m - Keys(work, key)
  {
    MaxRowidBounds(work, key);
    forall p, x | p in Keys(work, key) && Edge(rules, ins, p, x) && x in m ensures x in Keys(work, key) {
      assert x in Steps(rules, ins, KeysBetween(work, key, 0, lo));
    }
    ReachLeast(rules, ins, seed, m, Keys(work, key));
  }

  /** The restore statement's test: some rule concludes the key of `w` again. */
  predicate Rederivable(rules: seq<Rule>, key: Row -> Row, reads_: seq<seq<Row>>, members: seq<Row>, w: Row)
    requires WellFormed(rules, |reads_|)
  {
    exists r :: 0 <= r < |rules| && HasKeyOf(DerivedRows(rules[r], reads_, members), key, key(w))
  }

  function RestoredRows(rules: seq<Rule>, key: Row -> Row, reads_: seq<seq<Row>>, all: Table, work: Table): seq<Row>
    requires WellFormed(rules, |reads_|)
  {
    FilterRows(EntryRows(work.entries), w => Rederivable(rules, key, reads_, EntryRows(all.entries), w))
  }

  ghost function Conclusions(rules: seq<Rule>, ins: Inputs, m: iset<Row>): iset<Row> {
    iset x | Concludes(rules, ins, m, x)
  }

  lemma RestoredKeys(rules: seq<Rule>, key: Row -> Row, reads_: seq<seq<Row>>, ins: Inputs, all: Table, work: Table)
    requires RulesOk(rules, |reads_|, key) && Represents(reads_, ins)
    ensures KeysOf(RestoredRows(rules, key, reads_, all, work), key) ==
            Keys(work, key) * Conclusions(CanonAll(rules, key), ins, Keys(all, key))
  {
    EntryReads(work, key);
    forall k ensures k in KeysOf(RestoredRows(rules, key, reads_, all, work), key) <==>
        k in Keys(work, key) && Concludes(CanonAll(rules, key), ins, Keys(all, key), k) {
      RederivableSpec(rules, key, reads_, ins, all, k);
      FilterKeys(EntryRows(work.entries), key, w => Rederivable(rules, key, reads_, EntryRows(all.entries), w), k,
                 Concludes(CanonAll(rules, key), ins, Keys(all, key), k));
      assert HasKeyOf(EntryRows(work.entries), key, k) <==> k in Keys(work, key);
    }
  }

  lemma RederivableSpec(rules: seq<Rule>, key: Row -> Row, reads_: seq<seq<Row>>, ins: Inputs, all: Table, k: Row)
    requires RulesOk(rules, |reads_|, key) && Represents(reads_, ins)
    ensures forall w | key(w) == k ::
              Rederivable(rules, key, reads_, EntryRows(all.entries), w) <==>
                Concludes(CanonAll(rules, key), ins, Keys(all, key), k)
  {
    var canon := CanonAll(rules, key);
    CanonWellFormed(rules, |reads_|, key);
    RuleConcludesIsConcludes(canon, |reads_|, ins, Keys(all, key), k);
    EntryReads(all, key);
    forall r | 0 <= r < |rules|
      ensures HasKeyOf(DerivedRows(rules[r], reads_, EntryRows(all.entries)), key, k) <==>
                RuleConcludes(canon[r], ins, Keys(all, key), k)
    {
      EvaluateConcludes(rules[r], key, reads_, ins, EntryRows(all.entries), k);
    }
  }

  // ------------------------------------------------------------------- emission

  /** 1 when the row is stored. */
  ghost function Count(entries: seq<Entry>, r: Row): int {
    if r in EntryRows(entries) then 1 else 0
  }

  lemma UniqueRows(entries: seq<Entry>, key: Row -> Row)
    requires Unique(entries, key)
    ensures NoDuplicates(EntryRows(entries))
  {
  }

  /** `retract_gone`: deleted members not stored again exactly. */
  function GoneForGood(deleted: seq<Entry>, all: Table): seq<Row> {
    FilterRows(EntryRows(deleted), r => r !in EntryRows(all.entries))
  }

  /** `emit_stored`: members stored again under another representative. */
  function StoredAnew(deleted: seq<Entry>, all: Table, key: Row -> Row): seq<Row> {
    FilterRows(EntryRows(all.entries), r => HasOther(deleted, key, r))
  }

  predicate HasOther(deleted: seq<Entry>, key: Row -> Row, r: Row) {
    exists i :: 0 <= i < |deleted| && key(deleted[i].row) == key(r) && deleted[i].row != r
  }

  lemma HasOtherSpec(deleted: seq<Entry>, key: Row -> Row, r: Row)
    requires Unique(deleted, key)
    ensures HasOther(deleted, key, r) <==> HasKeyOf(EntryRows(deleted), key, key(r)) && r !in EntryRows(deleted)
  {
    if HasOther(deleted, key, r) {
      var i :| 0 <= i < |deleted| && key(deleted[i].row) == key(r) && deleted[i].row != r;
      assert key(EntryRows(deleted)[i]) == key(r);
    }
    if HasKeyOf(EntryRows(deleted), key, key(r)) && r !in EntryRows(deleted) {
      var i :| 0 <= i < |deleted| && key(EntryRows(deleted)[i]) == key(r);
      assert EntryRows(deleted)[i] != r;
    }
  }

  /** `emit_fresh`: members past `lo` whose key was not deleted. */
  function NewlyStored(deleted: seq<Entry>, all: Table, key: Row -> Row, lo: nat): seq<Row> {
    FilterRows(EntryRows(Range(all.entries, lo, all.sequence)), r => !HasKeyOf(EntryRows(deleted), key, key(r)))
  }

  lemma {:induction false} RangeValid(entries: seq<Entry>, sequence: nat, key: Row -> Row, lo: int, hi: int)
    requires Ordered(entries, sequence) && Unique(entries, key)
    ensures Unique(Range(entries, lo, hi), key)
    ensures forall e :: e in Range(entries, lo, hi) <==> e in entries && lo < e.id <= hi
  {
    if entries != [] {
      var rest := Range(entries[1..], lo, hi);
      TailValid(entries, sequence, key);
      RangeValid(entries[1..], sequence, key, lo, hi);
      assert entries == [entries[0]] + entries[1..];
      if lo < entries[0].id <= hi {
        UniqueAppend([entries[0]], rest, key);
      } else {
        assert [] + rest == rest;
      }
    }
  }

  lemma RowOfEntry(entries: seq<Entry>, r: Row)
    ensures r in EntryRows(entries) <==> exists e :: e in entries && e.row == r
  {
    if r in EntryRows(entries) {
      var i :| 0 <= i < |entries| && EntryRows(entries)[i] == r;
      assert entries[i] in entries;
    }
    if e :| e in entries && e.row == r {
      var i :| 0 <= i < |entries| && entries[i] == e;
      assert EntryRows(entries)[i] == r;
    }
  }

  lemma KeyOfEntry(entries: seq<Entry>, key: Row -> Row, k: Row)
    ensures HasKeyOf(EntryRows(entries), key, k) <==> exists e :: e in entries && key(e.row) == k
  {
    if HasKeyOf(EntryRows(entries), key, k) {
      var i :| 0 <= i < |entries| && key(EntryRows(entries)[i]) == k;
      assert entries[i] in entries;
    }
    if e :| e in entries && key(e.row) == k {
      var i :| 0 <= i < |entries| && entries[i] == e;
      assert key(EntryRows(entries)[i]) == k;
    }
  }

  /** The tables after a pass: old rows kept up to rowid `lo`, new ones past it. */
  ghost predicate PassDone(t0: Table, all: Table, deleted: seq<Entry>, key: Row -> Row, lo: nat) {
    && Tables.Valid(t0, key) && Tables.Valid(all, key) && Unique(deleted, key)
    && (forall e | e in t0.entries :: e.id <= lo && (e in all.entries || e in deleted))
    && (forall e | e in all.entries && e.id <= lo :: e in t0.entries)
    && (forall d | d in deleted :: d in t0.entries)
    && (forall e, d | e in all.entries && e.id <= lo && d in deleted :: key(e.row) != key(d.row))
  }

  lemma SameKeySameEntry(t: Table, key: Row -> Row, e: Entry, f: Entry)
    requires Unique(t.entries, key) && e in t.entries && f in t.entries && key(e.row) == key(f.row)
    ensures e == f
  {
  }

  /** Each row's three possible emissions add up to its change of presence. */
  lemma RowEmission(t0: Table, all: Table, deleted: seq<Entry>, key: Row -> Row, lo: nat, r: Row)
    requires PassDone(t0, all, deleted, key, lo)
    ensures (if r in StoredAnew(deleted, all, key) then 1 else 0)
            + (if r in NewlyStored(deleted, all, key, lo) then 1 else 0)
            - (if r in GoneForGood(deleted, all) then 1 else 0)
         == Count(all.entries, r) - Count(t0.entries, r)
  {
    var fresh_ := Range(all.entries, lo, all.sequence);
    RangeValid(all.entries, all.sequence, key, lo, all.sequence);
    RowOfEntry(t0.entries, r);
    RowOfEntry(all.entries, r);
    RowOfEntry(deleted, r);
    RowOfEntry(fresh_, r);
    KeyOfEntry(deleted, key, key(r));
    HasOtherSpec(deleted, key, r);
    if e :| e in all.entries && e.row == r {
      if e.id <= lo {
        forall f | f in fresh_ ensures f.row != r {
          if f.row == r { SameKeySameEntry(all, key, e, f); }
        }
      } else {
        assert e in fresh_;
        if d :| d in t0.entries && d.row == r {
          if d in all.entries {
            SameKeySameEntry(all, key, e, d);
          }
          assert d in deleted;
        }
      }
    }
  }

  /** The out table after the three emission statements. */
  function Emitted(out: Bag, deleted: seq<Entry>, all: Table, key: Row -> Row, lo: nat): Bag {
    out + Weigh(GoneForGood(deleted, all), -1) + Weigh(StoredAnew(deleted, all, key), 1)
    + Weigh(NewlyStored(deleted, all, key, lo), 1)
  }

  /** What is emitted is the change of the stored rows, representatives included. */
  lemma EmissionConserves(t0: Table, all: Table, deleted: seq<Entry>, key: Row -> Row, lo: nat, out: Bag, r: Row)
    requires PassDone(t0, all, deleted, key, lo)
    ensures Net(Emitted(out, deleted, all, key, lo), r) == Net(out, r) + Count(all.entries, r) - Count(t0.entries, r)
  {
    var g, a, n := GoneForGood(deleted, all), StoredAnew(deleted, all, key), NewlyStored(deleted, all, key, lo);
    UniqueRows(deleted, key);
    UniqueRows(all.entries, key);
    RangeValid(all.entries, all.sequence, key, lo, all.sequence);
    UniqueRows(Range(all.entries, lo, all.sequence), key);
    FilterNoDuplicates(EntryRows(deleted), r => r !in EntryRows(all.entries));
    FilterNoDuplicates(EntryRows(all.entries), r => HasOther(deleted, key, r));
    FilterNoDuplicates(EntryRows(Range(all.entries, lo, all.sequence)),
                       r => !HasKeyOf(EntryRows(deleted), key, key(r)));
    NetWeigh(g, -1, r);
    NetWeigh(a, 1, r);
    NetWeigh(n, 1, r);
    NetAppend(out + Weigh(g, -1) + Weigh(a, 1), Weigh(n, 1), r);
    NetAppend(out + Weigh(g, -1), Weigh(a, 1), r);
    NetAppend(out, Weigh(g, -1), r);
    RowEmission(t0, all, deleted, key, lo, r);
  }

  lemma NothingAbove(t: Table, key: Row -> Row, lo0: int, lo: int)
    requires Tables.Valid(t, key) && MaxRowid(t) == lo
    ensures KeysBetween(t, key, lo0, t.sequence) == KeysBetween(t, key, lo0, lo)
  {
    MaxRowidBounds(t, key);
    forall k ensures HasKeyBetween(t.entries, key, lo0, t.sequence, k) <==> HasKeyBetween(t.entries, key, lo0, lo, k) {
      if HasKeyBetween(t.entries, key, lo0, t.sequence, k) {
        var i :| 0 <= i < |t.entries| && lo0 < t.entries[i].id <= t.sequence && key(t.entries[i].row) == k;
      }
    }
  }

  /** Deletes can leave `max(rowid)` below the bound the rounds start from; the
      first round then reads an empty range and adds nothing. */
  lemma EmptyRound(t: Table, u: Table, key: Row -> Row, rules: seq<Rule>, ins: Inputs, lo: int, hi: int)
    requires Tables.Valid(t, key) && Tables.Valid(u, key) && Extends(t, u) && hi < lo && hi == MaxRowid(t)
    requires Keys(u, key) == Keys(t, key) + Steps(rules, ins, KeysBetween(t, key, lo, hi))
    ensures u.entries == t.entries && MaxRowid(u) == hi
    ensures forall lo0: int :: KeysBetween(u, key, lo0, hi) == KeysBetween(t, key, lo0, hi)
  {
    assert KeysBetween(t, key, lo, hi) == iset{};
    assert Steps(rules, ins, iset{}) == iset{};
    if |u.entries| > |t.entries| {
      var k := key(u.entries[|t.entries|].row);
      assert HasKey(u.entries, key, k);
      assert k in Keys(u, key);
      NewKeyIsNew(t, u, key, |t.entries|);
    }
  }

  /** `seed_new`, when nothing was deleted. */
  lemma SeedConserves(t0: Table, all: Table, key: Row -> Row, lo: nat, out: Bag, r: Row)
    requires PassDone(t0, all, [], key, lo)
    ensures Net(out + Weigh(EntryRows(Range(all.entries, lo, all.sequence)), 1), r) ==
              Net(out, r) + Count(all.entries, r) - Count(t0.entries, r)
  {
    var n := EntryRows(Range(all.entries, lo, all.sequence));
    RangeValid(all.entries, all.sequence, key, lo, all.sequence);
    UniqueRows(Range(all.entries, lo, all.sequence), key);
    NetWeigh(n, 1, r);
    NetAppend(out, Weigh(n, 1), r);
    RowEmission(t0, all, [], key, lo, r);
  }

  // ------------------------------------------------------------------ one pass

  /** In the middle of a pass: members with rowids up to `lo` are the kept ones. */
  ghost predicate PassState(t0: Table, all: Table, deleted: seq<Entry>, key: Row -> Row, lo: nat, kept: iset<Row>,
                            bound: iset<Row>) {
    && Tables.Valid(all, key) && lo <= all.sequence && PassDone(t0, all, deleted, key, lo)
    && KeysBetween(all, key, 0, lo) == kept
    && KeysBetween(all, key, lo, all.sequence) <= bound
  }

  lemma PassExtends(t0: Table, t: Table, u: Table, deleted: seq<Entry>, key: Row -> Row, lo: nat, kept: iset<Row>,
                    bound: iset<Row>)
    requires PassState(t0, t, deleted, key, lo, kept, bound) && Tables.Valid(u, key) && Extends(t, u)
    requires Keys(u, key) <= kept + bound || KeysBetween(u, key, lo, u.sequence) <= bound
    ensures PassState(t0, u, deleted, key, lo, kept, bound)
  {
    KeysBetweenStable(t, u, key, 0, lo);
    NewKeys(t, u, key, lo);
    KeysGrow(t, u, key);
    BetweenIsStored(t, key, 0, lo);
    forall e | e in t.entries ensures e in u.entries {
      var i :| 0 <= i < |t.entries| && t.entries[i] == e;
      assert u.entries[..|t.entries|][i] == e;
    }
    forall e | e in u.entries && e.id <= lo ensures e in t.entries {
      var i :| 0 <= i < |u.entries| && u.entries[i] == e;
      assert i < |t.entries|;
      assert u.entries[..|t.entries|][i] == t.entries[i];
    }
  }

  lemma PassStart(t: Table, key: Row -> Row, bound: iset<Row>)
    requires Tables.Valid(t, key)
    ensures PassState(t, t, [], key, MaxRowid(t), Keys(t, key), bound)
  {
    MaxRowidBounds(t, key);
    NothingAbove(t, key, MaxRowid(t), MaxRowid(t));
    assert KeysBetween(t, key, MaxRowid(t), MaxRowid(t)) == iset{};
  }

  lemma PassAfterDeletes(t0: Table, t: Table, deleted: seq<Entry>, key: Row -> Row, bound: iset<Row>)
    requires Tables.Valid(t0, key) && Tables.Valid(t, key) && DeletedOk(t0, t, deleted, key)
    ensures PassState(t0, t, deleted, key, MaxRowid(t0), Keys(t, key), bound)
    ensures MaxRowid(t) <= MaxRowid(t0)
    ensures KeysBetween(t, key, 0, MaxRowid(t)) == Keys(t, key)
    ensures KeysBetween(t, key, MaxRowid(t), t.sequence) == iset{}
  {
    var lo := MaxRowid(t0);
    MaxRowidBounds(t0, key);
    MaxRowidBounds(t, key);
    NothingAbove(t, key, MaxRowid(t), MaxRowid(t));
    if t.entries != [] {
      assert t.entries[|t.entries| - 1] in t.entries;
    }
    NothingAbove(t, key, lo, MaxRowid(t));
    assert KeysBetween(t, key, lo, MaxRowid(t)) == iset{};
    KeysSplit(t, key, 0, MaxRowid(t), lo);
    NothingAbove(t, key, MaxRowid(t), MaxRowid(t));
    SubRange(t, key, MaxRowid(t), lo, t.sequence);
  }

  lemma SubRange(t: Table, key: Row -> Row, lo: int, mid: int, hi: int)
    requires lo <= mid <= hi
    ensures KeysBetween(t, key, mid, hi) <= KeysBetween(t, key, lo, hi)
    ensures KeysBetween(t, key, lo, mid) <= KeysBetween(t, key, lo, hi)
  {
    KeysSplit(t, key, lo, mid, hi);
  }

  /** At the end of a pass the new members are exactly the ones the pass should store. */
  lemma PassExact(rules: seq<Rule>, before: Inputs, after: Inputs, side: nat, m: iset<Row>, all: Table,
                  key: Row -> Row, lo: nat)
    requires side < |before| == |after| && Tables.Valid(all, key) && lo <= all.sequence
    requires
      var dropped := Dropped(rules, before, after, side, m);
      && KeysBetween(all, key, 0, lo) == m - dropped
      && KeysBetween(all, key, lo, all.sequence) <= Fresh(rules, before, after, side, m - dropped, dropped)
      && FreshSeed(rules, before, after, side, m - dropped, dropped) <= Keys(all, key)
    requires Steps(rules, after, KeysBetween(all, key, lo, all.sequence)) <= Keys(all, key)
    ensures Keys(all, key) == AfterSide(rules, before, after, side, m)
  {
    var dropped := Dropped(rules, before, after, side, m);
    var kept := m - dropped;
    var g := KeysBetween(all, key, lo, all.sequence);
    MaxRowidBounds(all, key);
    KeysSplit(all, key, 0, lo, all.sequence);
    NothingAbove(all, key, 0, MaxRowid(all));
    assert Keys(all, key) == kept + g;
    forall p, x | p in g && Edge(rules, after, p, x) && x in Outside(kept) ensures x in g {
      assert x in Steps(rules, after, g);
    }
    ReachLeast(rules, after, FreshSeed(rules, before, after, side, kept, dropped), Outside(kept), g);
  }

  lemma FreshClosed(rules: seq<Rule>, before: Inputs, after: Inputs, side: nat, kept: iset<Row>, dropped: iset<Row>)
    requires side < |before| == |after|
    ensures StepClosed(rules, after, Outside(kept), Fresh(rules, before, after, side, kept, dropped))
    ensures FreshSeed(rules, before, after, side, kept, dropped) <= Fresh(rules, before, after, side, kept, dropped)
  {
    var seed := FreshSeed(rules, before, after, side, kept, dropped);
    ReachStart(rules, after, seed, Outside(kept));
    forall p, x | p in Reach(rules, after, seed, Outside(kept)) && Edge(rules, after, p, x) && x in Outside(kept)
      ensures x in Reach(rules, after, seed, Outside(kept))
    {
      ReachStep(rules, after, seed, Outside(kept), p, x);
    }
  }

  lemma AllKeys(t: Table, key: Row -> Row, lo: int)
    requires Tables.Valid(t, key) && 0 <= lo <= t.sequence
    ensures Keys(t, key) == KeysBetween(t, key, 0, lo) + KeysBetween(t, key, lo, t.sequence)
  {
    MaxRowidBounds(t, key);
    NothingAbove(t, key, 0, MaxRowid(t));
    KeysSplit(t, key, 0, lo, t.sequence);
  }

  lemma RestoreIsFresh(rules: seq<Rule>, before: Inputs, after: Inputs, side: nat, kept: iset<Row>, dropped: iset<Row>)
    requires side < |before| == |after|
    ensures dropped * Conclusions(rules, after, kept) <= Fresh(rules, before, after, side, kept, dropped)
  {
    FreshClosed(rules, before, after, side, kept, dropped);
  }

  lemma ArrivalIsFresh(rules: seq<Rule>, before: Inputs, after: Inputs, side: nat, kept: iset<Row>,
                       dropped: iset<Row>, delta: iset<Row>)
    requires side < |before| == |after| && delta == Arrived(before, after, side)
    ensures Via(rules, after, kept, side, delta) <= kept + Fresh(rules, before, after, side, kept, dropped)
  {
    FreshClosed(rules, before, after, side, kept, dropped);
  }

  lemma SeedStored(rules: seq<Rule>, before: Inputs, after: Inputs, side: nat, kept: iset<Row>, dropped: iset<Row>,
                   delta: iset<Row>, m: iset<Row>)
    requires side < |before| == |after| && delta == Arrived(before, after, side)
    requires dropped * Conclusions(rules, after, kept) <= m && Via(rules, after, kept, side, delta) <= m
    ensures FreshSeed(rules, before, after, side, kept, dropped) <= m
  {
    forall x | x in FreshSeed(rules, before, after, side, kept, dropped) ensures x in m {
      if x in dropped && Concludes(rules, after, kept, x) {
        assert x in Conclusions(rules, after, kept);
      } else {
        assert x in Via(rules, after, kept, side, delta);
      }
    }
  }

  lemma LeftEmpty(rules: seq<Rule>, before: Inputs, after: Inputs, side: nat, m: iset<Row>, left: seq<Row>)
    requires side < |before| == |after| && left == [] && RowSet(left) == Gone(before, after, side)
    ensures Dropped(rules, before, after, side, m) == iset{}
    ensures m - Dropped(rules, before, after, side, m) == m
  {
    assert RowSet(left) == iset{};
    NothingDropped(rules, before, after, side, m);
  }

  /** The restored rows lie above `max(rowid)` after the deletes. */
  lemma RestoredRange(t: Table, u: Table, key: Row -> Row, bound: iset<Row>)
    requires Tables.Valid(t, key) && Tables.Valid(u, key) && Extends(t, u) && Keys(u, key) <= Keys(t, key) + bound
    ensures MaxRowid(t) <= u.sequence
    ensures KeysBetween(u, key, 0, MaxRowid(t)) == Keys(t, key)
    ensures KeysBetween(u, key, MaxRowid(t), u.sequence) <= bound
  {
    MaxRowidBounds(t, key);
    NothingAbove(t, key, MaxRowid(t), MaxRowid(t));
    assert KeysBetween(t, key, MaxRowid(t), MaxRowid(t)) == iset{};
    NewKeys(t, u, key, MaxRowid(t));
    KeysBetweenStable(t, u, key, 0, MaxRowid(t));
  }

  /** After the rederivation, the kept members are the ones up to the old `max(rowid)`. */
  lemma AfterRestore(t0: Table, t: Table, u: Table, deleted: seq<Entry>, key: Row -> Row, bound: iset<Row>)
    requires Tables.Valid(t0, key) && Tables.Valid(t, key) && Tables.Valid(u, key) && DeletedOk(t0, t, deleted, key)
    requires Extends(t, u) && Keys(u, key) <= Keys(t, key) + bound
    ensures PassState(t0, u, deleted, key, MaxRowid(t0), Keys(t, key), bound)
  {
    PassAfterDeletes(t0, t, deleted, key, bound);
    PassExtends(t0, t, u, deleted, key, MaxRowid(t0), Keys(t, key), bound);
  }

  lemma PassFinish(rules: seq<Rule>, before: Inputs, after: Inputs, side: nat, m: iset<Row>, t: Table, u: Table,
                   key: Row -> Row, lo: nat, delta: iset<Row>)
    requires side < |before| == |after| && delta == Arrived(before, after, side)
    requires Tables.Valid(u, key) && Extends(t, u) && lo <= u.sequence
    requires Restored(rules, before, after, side, m) <= Keys(t, key)
    requires
      var dropped := Dropped(rules, before, after, side, m);
      && KeysBetween(u, key, 0, lo) == m - dropped
      && KeysBetween(u, key, lo, u.sequence) <= Fresh(rules, before, after, side, m - dropped, dropped)
      && Via(rules, after, m - dropped, side, delta) <= Keys(u, key)
    requires Steps(rules, after, KeysBetween(u, key, lo, u.sequence)) <= Keys(u, key)
    ensures Keys(u, key) == AfterSide(rules, before, after, side, m)
  {
    var dropped := Dropped(rules, before, after, side, m);
    KeysGrow(t, u, key);
    SeedStored(rules, before, after, side, m - dropped, dropped, delta, Keys(u, key));
    PassExact(rules, before, after, side, m, u, key, lo);
  }

  /** The state between the departures and the arrivals of a pass. */
  ghost predicate MidPass(rules: seq<Rule>, before: Inputs, after: Inputs, side: nat, m: iset<Row>,
                          t0: Table, all: Table, deleted: seq<Entry>, key: Row -> Row)
    requires side < |before| == |after|
  {
    var dropped := Dropped(rules, before, after, side, m);
    PassState(t0, all, deleted, key, MaxRowid(t0), m - dropped, Fresh(rules, before, after, side, m - dropped, dropped))
  }

  /** Dropped members the restore statement stores again. */
  ghost function Restored(rules: seq<Rule>, before: Inputs, after: Inputs, side: nat, m: iset<Row>): iset<Row>
    requires side < |before| == |after|
  {
    var dropped := Dropped(rules, before, after, side, m);
    dropped * Conclusions(rules, after, m - dropped)
  }

  lemma UntouchedSide(inputs: seq<Side>, side: nat)
    requires side < |inputs| && inputs[side].delta == []
    ensures Before(inputs)[side] == After(inputs)[side]
  {
  }

  // ---------------------------------------------------------------- population

  lemma BaseIsRuleConcludes(rules: seq<Rule>, ins: Inputs, x: Row)
    requires Base(rules, ins, x)
    ensures exists r :: 0 <= r < |rules| && !HasMember(rules[r]) && RuleConcludes(rules[r], ins, iset{}, x)
  {
    var r, t :| 0 <= r < |rules| && !HasMember(rules[r]) && Fires(rules[r], t, ins) && rules[r].head(t) == x;
    assert MembersIn(rules[r], t, iset{});
    assert RuleConcludes(rules[r], ins, iset{}, x);
  }

  /** Member-free conclusions of the first `n` rules. */
  ghost function BasesBy(rules: seq<Rule>, n: nat, ins: Inputs): iset<Row> {
    iset x | BasedBy(rules, n, ins, x)
  }

  ghost predicate BasedBy(rules: seq<Rule>, n: nat, ins: Inputs, x: Row) {
    exists r :: 0 <= r < n && r < |rules| && !HasMember(rules[r]) && RuleConcludes(rules[r], ins, iset{}, x)
  }

  /** After the anchor statements of the first `n` rules. */
  ghost predicate Anchored(t0: Table, t: Table, key: Row -> Row, rules: seq<Rule>, n: nat, ins: Inputs) {
    && Tables.Valid(t, key) && Extends(t0, t)
    && BasesBy(CanonAll(rules, key), n, ins) <= Keys(t, key) <= Lfp(CanonAll(rules, key), ins)
  }

  /** An anchor statement adds rows of the least fixpoint, and all of its rule's
      member-free conclusions. */
  lemma AnchorStatement(t0: Table, t: Table, key: Row -> Row, rules: seq<Rule>, r: nat, reads_: seq<seq<Row>>,
                        ins: Inputs)
    requires RulesOk(rules, |reads_|, key) && r < |rules| && Represents(reads_, ins)
    requires Anchored(t0, t, key, rules, r, ins)
    ensures Anchored(t0, InsertAll(t, key, DerivedRows(rules[r], reads_, EntryRows(t.entries))), key, rules, r + 1, ins)
  {
    assert WellFormedRule(rules[r], |reads_|);
    var canon, rows := CanonAll(rules, key), DerivedRows(rules[r], reads_, EntryRows(t.entries));
    EntryReads(t, key);
    DerivedKeys(rules[r], key, reads_, ins, EntryRows(t.entries));
    InsertAllKeepsTable(t, key, rows);
    ExtendsTransitive(t0, t, InsertAll(t, key, rows));
    CanonWellFormed(rules, |reads_|, key);
    ConclusionsInLfp(canon, |reads_|, r, ins, Keys(t, key));
    forall x | BasedBy(canon, r + 1, ins, x)
      ensures x in BasesBy(canon, r, ins) + RuleConclusions(canon[r], ins, Keys(t, key)) {
      if !BasedBy(canon, r, ins, x) {
        var u :| Fires(canon[r], u, ins) && MembersIn(canon[r], u, iset{}) && canon[r].head(u) == x;
        assert MembersIn(canon[r], u, Keys(t, key));
      }
    }
  }

  lemma ConclusionsInLfp(rules: seq<Rule>, sides: nat, r: nat, ins: Inputs, m: iset<Row>)
    requires WellFormed(rules, sides) && r < |rules| && m <= Lfp(rules, ins)
    ensures RuleConclusions(rules[r], ins, m) <= Lfp(rules, ins)
  {
    LfpClosed(rules, ins);
    BelowItself(ins);
    forall x | x in RuleConclusions(rules[r], ins, m) ensures x in Lfp(rules, ins) {
      RuleConcludesIsConcludes(rules, sides, ins, m, x);
      ConcludesMonotone(rules, ins, ins, m, Lfp(rules, ins), x);
    }
  }

  lemma BelowItself(ins: Inputs)
    ensures Below(ins, ins)
  {
  }

  lemma RoundInLfp(t: Table, key: Row -> Row, rules: seq<Rule>, ins: Inputs, lo: int, hi: int)
    requires Keys(t, key) <= Lfp(rules, ins)
    ensures Steps(rules, ins, KeysBetween(t, key, lo, hi)) <= Lfp(rules, ins)
  {
    LfpClosed(rules, ins);
    BetweenIsStored(t, key, lo, hi);
    forall x | x in Steps(rules, ins, KeysBetween(t, key, lo, hi)) ensures x in Lfp(rules, ins) {
      assert Concludes(rules, ins, Lfp(rules, ins), x);
    }
  }

  /** Whichever break ends the loop, every member has been stepped from. */
  lemma PopulationClosed(t: Table, key: Row -> Row, rules: seq<Rule>, ins: Inputs, lo: int)
    requires Tables.Valid(t, key) && lo == MaxRowid(t)
    requires Bases(rules, ins) <= Keys(t, key) <= Lfp(rules, ins)
    requires Steps(rules, ins, KeysBetween(t, key, 0, lo)) <= Keys(t, key)
    ensures Keys(t, key) == Lfp(rules, ins)
  {
    MaxRowidBounds(t, key);
    forall p, x | p in Keys(t, key) && Edge(rules, ins, p, x) ensures x in Keys(t, key) {
      assert x in Steps(rules, ins, KeysBetween(t, key, 0, lo));
    }
    ReachLeast(rules, ins, Bases(rules, ins), Outside(iset{}), Keys(t, key));
  }

  lemma {:induction false} UniqueFits(entries: seq<Entry>, key: Row -> Row, universe: set<Row>)
    requires Unique(entries, key) && forall i | 0 <= i < |entries| :: key(entries[i].row) in universe
    ensures |entries| <= |universe|
  {
    if entries != [] {
      var k := key(entries[0].row);
      forall i | 0 <= i < |entries[1..]| ensures key(entries[1..][i].row) in universe - {k} {
        assert entries[1..][i] == entries[i + 1];
      }
      UniqueFits(entries[1..], key, universe - {k});
    }
  }

  /** `universe` holds `m` and has fewer rows than there may be rounds. */
  ghost predicate RoundsFit(m: iset<Row>, universe: set<Row>) {
    |universe| < BULK_ROUND_BUDGET && forall x | x in m :: x in universe
  }

  /** A table with keys in such a universe has fewer rows than there may be rounds. */
  lemma EntriesFit(t: Table, key: Row -> Row, m: iset<Row>, universe: set<Row>)
    requires Tables.Valid(t, key) && Keys(t, key) <= m
    ensures RoundsFit(m, universe) ==> |t.entries| < BULK_ROUND_BUDGET
  {
    if RoundsFit(m, universe) {
      forall i | 0 <= i < |t.entries| ensures key(t.entries[i].row) in universe {
        assert HasKey(t.entries, key, key(t.entries[i].row));
        assert key(t.entries[i].row) in Keys(t, key);
      }
      UniqueFits(t.entries, key, universe);
    }
  }
}

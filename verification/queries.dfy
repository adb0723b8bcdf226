/** Evaluating one rule as SQL does: a nested-loop join of one source per
    occurrence, filtered and projected. Stored members are representatives of
    their membership key; a rule may not tell two of them apart. */
module Queries {
  import opened Rows
  import opened Datalog
  import opened Tables

  function PrependRow(row: Row, tails: seq<seq<Row>>): seq<seq<Row>> {
    if tails == [] then [] else [[row] + tails[0]] + PrependRow(row, tails[1..])
  }

  function Prepend(rows: seq<Row>, tails: seq<seq<Row>>): seq<seq<Row>> {
    if rows == [] then [] else PrependRow(rows[0], tails) + Prepend(rows[1..], tails)
  }

  /** FROM source0, source1, ... */
  function Product(sources: seq<seq<Row>>): seq<seq<Row>> {
    if sources == [] then [[]] else Prepend(sources[0], Product(sources[1..]))
  }

  /** SELECT head FROM tuples WHERE accepts. */
  function Select(rule: Rule, tuples: seq<seq<Row>>): seq<Row> {
    if tuples == [] then []
    else (if rule.accepts(tuples[0]) then [rule.head(tuples[0])] else []) + Select(rule, tuples[1..])
  }

  function Evaluate(rule: Rule, sources: seq<seq<Row>>): seq<Row> {
    Select(rule, Product(sources))
  }

  ghost predicate FromEach(t: seq<Row>, sources: seq<seq<Row>>) {
    |t| == |sources| && forall i | 0 <= i < |t| :: t[i] in sources[i]
  }

  lemma {:induction false} PrependRowSpec(row: Row, tails: seq<seq<Row>>, t: seq<Row>)
    ensures t in PrependRow(row, tails) <==> t != [] && t[0] == row && t[1..] in tails
  {
    if tails != [] {
      PrependRowSpec(row, tails[1..], t);
      assert tails == [tails[0]] + tails[1..];
      if t != [] && t[0] == row && t[1..] == tails[0] {
        assert t == [row] + tails[0];
      }
    }
  }

  lemma {:induction false} PrependSpec(rows: seq<Row>, tails: seq<seq<Row>>, t: seq<Row>)
    ensures t in Prepend(rows, tails) <==> t != [] && t[0] in rows && t[1..] in tails
  {
    if rows != [] {
      PrependSpec(rows[1..], tails, t);
      PrependRowSpec(rows[0], tails, t);
      assert rows == [rows[0]] + rows[1..];
    }
  }

  lemma {:induction false} ProductSpec(sources: seq<seq<Row>>, t: seq<Row>)
    ensures t in Product(sources) <==> FromEach(t, sources)
  {
    if sources != [] {
      PrependSpec(sources[0], Product(sources[1..]), t);
      if t != [] {
        ProductSpec(sources[1..], t[1..]);
        if FromEach(t[1..], sources[1..]) && t[0] in sources[0] {
          forall i | 0 <= i < |t| ensures t[i] in sources[i] {
            assert i > 0 ==> t[i] == t[1..][i - 1] && sources[i] == sources[1..][i - 1];
          }
        }
      }
    }
  }

  lemma {:induction false} SelectSpec(rule: Rule, tuples: seq<seq<Row>>, x: Row)
    ensures x in Select(rule, tuples) <==> exists t :: t in tuples && rule.accepts(t) && rule.head(t) == x
  {
    if tuples != [] {
      SelectSpec(rule, tuples[1..], x);
      assert tuples == [tuples[0]] + tuples[1..];
    }
  }

  // ------------------------------------------------------- representatives of keys

  /** The rule as it concludes keys instead of rows. */
  function Canon(rule: Rule, key: Row -> Row): Rule {
    Rule(rule.occurrences, rule.accepts, t => key(rule.head(t)))
  }

  function CanonAll(rules: seq<Rule>, key: Row -> Row): (canon: seq<Rule>)
    ensures |canon| == |rules|
  {
    seq(|rules|, r requires 0 <= r < |rules| => Canon(rules[r], key))
  }

  /** `t` and `u` pick the same input rows and key-equal members. */
  ghost predicate KeyEqual(rule: Rule, key: Row -> Row, t: seq<Row>, u: seq<Row>) {
    && |t| == |u| == |rule.occurrences|
    && forall i | 0 <= i < |t| ::
         match rule.occurrences[i]
         case Input(_) => t[i] == u[i]
         case Member => key(t[i]) == key(u[i])
  }

  /** Key-equal members give the same answer up to the key of the head. */
  ghost predicate Respects(rule: Rule, key: Row -> Row) {
    forall t, u | KeyEqual(rule, key, t, u) ::
      rule.accepts(t) == rule.accepts(u) && key(rule.head(t)) == key(rule.head(u))
  }

  ghost predicate Idempotent(key: Row -> Row) {
    forall r :: key(key(r)) == key(r)
  }

  /** `t` picks input rows from the sources, and keys of member rows. */
  ghost predicate PicksKeys(rule: Rule, key: Row -> Row, t: seq<Row>, sources: seq<seq<Row>>) {
    && |t| == |sources| == |rule.occurrences|
    && (forall i | 0 <= i < |t| ::
          match rule.occurrences[i]
          case Input(_) => t[i] in sources[i]
          case Member => HasKeyOf(sources[i], key, t[i]))
    && rule.accepts(t)
  }

  ghost predicate ConcludesKey(rule: Rule, key: Row -> Row, sources: seq<seq<Row>>, x: Row) {
    exists t :: PicksKeys(rule, key, t, sources) && key(rule.head(t)) == x
  }

  ghost predicate OneMember(rule: Rule) {
    forall i, j | 0 <= i < j < |rule.occurrences| :: !(rule.occurrences[i] == Member && rule.occurrences[j] == Member)
  }

  lemma EvaluateSound(rule: Rule, key: Row -> Row, sources: seq<seq<Row>>, x: Row)
    requires Respects(rule, key) && Idempotent(key) && |sources| == |rule.occurrences|
    requires HasKeyOf(Evaluate(rule, sources), key, x)
    ensures ConcludesKey(rule, key, sources, x)
  {
    var rows := Evaluate(rule, sources);
    var n :| 0 <= n < |rows| && key(rows[n]) == x;
    SelectSpec(rule, Product(sources), rows[n]);
    var t :| t in Product(sources) && rule.accepts(t) && rule.head(t) == rows[n];
    ProductSpec(sources, t);
    var u := seq(|t|, i requires 0 <= i < |t| => if rule.occurrences[i] == Member then key(t[i]) else t[i]);
    assert KeyEqual(rule, key, t, u);
    forall i | 0 <= i < |t| && rule.occurrences[i] == Member ensures HasKeyOf(sources[i], key, u[i]) {
      var j :| 0 <= j < |sources[i]| && sources[i][j] == t[i];
    }
    assert PicksKeys(rule, key, u, sources);
  }

  lemma EvaluateComplete(rule: Rule, key: Row -> Row, sources: seq<seq<Row>>, x: Row)
    requires Respects(rule, key) && Idempotent(key) && OneMember(rule) && |sources| == |rule.occurrences|
    requires ConcludesKey(rule, key, sources, x)
    ensures HasKeyOf(Evaluate(rule, sources), key, x)
  {
    var u :| PicksKeys(rule, key, u, sources) && key(rule.head(u)) == x;
    var t := u;
    if at :| 0 <= at < |u| && rule.occurrences[at] == Member {
      var j :| 0 <= j < |sources[at]| && key(sources[at][j]) == u[at];
      t := u[at := sources[at][j]];
    }
    assert KeyEqual(rule, key, u, t);
    assert FromEach(t, sources);
    ProductSpec(sources, t);
    SelectSpec(rule, Product(sources), rule.head(t));
    var rows := Evaluate(rule, sources);
    var n :| 0 <= n < |rows| && rows[n] == rule.head(t);
  }

  /** Each occurrence reads its side's rows, or the given member rows. */
  function Sources(rule: Rule, inputs: seq<seq<Row>>, members: seq<Row>): (sources: seq<seq<Row>>)
    requires WellFormedRule(rule, |inputs|)
    ensures |sources| == |rule.occurrences|
  {
    seq(|rule.occurrences|, i requires 0 <= i < |rule.occurrences| =>
      match rule.occurrences[i]
      case Input(s) => inputs[s]
      case Member => members)
  }

  ghost predicate Represents(inputs: seq<seq<Row>>, ins: Inputs) {
    |inputs| == |ins| && forall s | 0 <= s < |ins| :: RowSet(inputs[s]) == ins[s]
  }

  /** One rule over `ins` and member keys `m` concludes `x`. */
  ghost predicate RuleConcludes(rule: Rule, ins: Inputs, m: iset<Row>, x: Row) {
    exists t :: Fires(rule, t, ins) && MembersIn(rule, t, m) && rule.head(t) == x
  }

  /** The same, its occurrence `at` reading a row of `delta`. */
  ghost predicate RuleConcludesAt(rule: Rule, ins: Inputs, m: iset<Row>, at: nat, delta: iset<Row>, x: Row) {
    exists t :: Fires(rule, t, ins) && MembersIn(rule, t, m) && at < |t| && t[at] in delta && rule.head(t) == x
  }

  ghost predicate MembersIn(rule: Rule, t: seq<Row>, m: iset<Row>) {
    |t| == |rule.occurrences| && forall i | 0 <= i < |t| && rule.occurrences[i] == Member :: t[i] in m
  }

  /** What a derive statement inserts, as keys. */
  lemma EvaluateConcludes(rule: Rule, key: Row -> Row, inputs: seq<seq<Row>>, ins: Inputs, members: seq<Row>, x: Row)
    requires WellFormedRule(rule, |inputs|) && Respects(rule, key) && Idempotent(key) && Represents(inputs, ins)
    ensures HasKeyOf(Evaluate(rule, Sources(rule, inputs, members)), key, x)
       <==> RuleConcludes(Canon(rule, key), ins, KeysOf(members, key), x)
  {
    var sources := Sources(rule, inputs, members);
    var canon := Canon(rule, key);
    if HasKeyOf(Evaluate(rule, sources), key, x) {
      EvaluateSound(rule, key, sources, x);
      var t :| PicksKeys(rule, key, t, sources) && key(rule.head(t)) == x;
      forall i | 0 <= i < |t| && rule.occurrences[i].Input? ensures t[i] in ins[rule.occurrences[i].side] {
        assert t[i] in RowSet(inputs[rule.occurrences[i].side]);
      }
      assert Fires(canon, t, ins) && MembersIn(canon, t, KeysOf(members, key));
    }
    if RuleConcludes(canon, ins, KeysOf(members, key), x) {
      var t :| Fires(canon, t, ins) && MembersIn(canon, t, KeysOf(members, key)) && canon.head(t) == x;
      forall i | 0 <= i < |t| && rule.occurrences[i].Input? ensures t[i] in sources[i] {
        assert t[i] in RowSet(inputs[rule.occurrences[i].side]);
      }
      assert PicksKeys(rule, key, t, sources);
      EvaluateComplete(rule, key, sources, x);
    }
  }

  /** The same with occurrence `at` bound to a delta table of its side. */
  lemma EvaluateConcludesAt(rule: Rule, key: Row -> Row, inputs: seq<seq<Row>>, ins: Inputs, members: seq<Row>,
                            at: nat, delta: seq<Row>, x: Row)
    requires WellFormedRule(rule, |inputs|) && Respects(rule, key) && Idempotent(key) && Represents(inputs, ins)
    requires at < |rule.occurrences| && rule.occurrences[at].Input?
    requires RowSet(delta) <= ins[rule.occurrences[at].side]
    ensures HasKeyOf(Evaluate(rule, Sources(rule, inputs, members)[at := delta]), key, x)
       <==> RuleConcludesAt(Canon(rule, key), ins, KeysOf(members, key), at, RowSet(delta), x)
  {
    if HasKeyOf(Evaluate(rule, Sources(rule, inputs, members)[at := delta]), key, x) {
      EvaluatedAt(rule, key, inputs, ins, members, at, delta, x);
    }
    if RuleConcludesAt(Canon(rule, key), ins, KeysOf(members, key), at, RowSet(delta), x) {
      ConcludedAt(rule, key, inputs, ins, members, at, delta, x);
    }
  }

  lemma EvaluatedAt(rule: Rule, key: Row -> Row, inputs: seq<seq<Row>>, ins: Inputs, members: seq<Row>, at: nat,
                    delta: seq<Row>, x: Row)
    requires WellFormedRule(rule, |inputs|) && Respects(rule, key) && Idempotent(key) && Represents(inputs, ins)
    requires at < |rule.occurrences| && rule.occurrences[at].Input?
    requires RowSet(delta) <= ins[rule.occurrences[at].side]
    requires HasKeyOf(Evaluate(rule, Sources(rule, inputs, members)[at := delta]), key, x)
    ensures RuleConcludesAt(Canon(rule, key), ins, KeysOf(members, key), at, RowSet(delta), x)
  {
    var sources := Sources(rule, inputs, members)[at := delta];
    EvaluateSound(rule, key, sources, x);
    var t :| PicksKeys(rule, key, t, sources) && key(rule.head(t)) == x;
    assert t[at] in RowSet(delta);
    forall i | 0 <= i < |t| && rule.occurrences[i].Input? ensures t[i] in ins[rule.occurrences[i].side] {
      if i != at { assert t[i] in RowSet(inputs[rule.occurrences[i].side]); }
    }
    assert Fires(Canon(rule, key), t, ins) && MembersIn(Canon(rule, key), t, KeysOf(members, key));
  }

  lemma ConcludedAt(rule: Rule, key: Row -> Row, inputs: seq<seq<Row>>, ins: Inputs, members: seq<Row>, at: nat,
                    delta: seq<Row>, x: Row)
    requires WellFormedRule(rule, |inputs|) && Respects(rule, key) && Idempotent(key) && Represents(inputs, ins)
    requires at < |rule.occurrences| && rule.occurrences[at].Input?
    requires RuleConcludesAt(Canon(rule, key), ins, KeysOf(members, key), at, RowSet(delta), x)
    ensures HasKeyOf(Evaluate(rule, Sources(rule, inputs, members)[at := delta]), key, x)
  {
    var sources := Sources(rule, inputs, members)[at := delta];
    var canon := Canon(rule, key);
    var t :| Fires(canon, t, ins) && MembersIn(canon, t, KeysOf(members, key)) && at < |t| && t[at] in RowSet(delta)
             && canon.head(t) == x;
    forall i | 0 <= i < |t| && rule.occurrences[i].Input? ensures t[i] in sources[i] {
      if i != at { assert t[i] in RowSet(inputs[rule.occurrences[i].side]); }
    }
    assert PicksKeys(rule, key, t, sources);
    EvaluateComplete(rule, key, sources, x);
  }

  // ------------------------------------------- rule by rule versus all rules at once

  lemma ReadsItsMember(rule: Rule, t: seq<Row>, at: nat)
    requires OneMember(rule) && |t| == |rule.occurrences| && at < |t| && rule.occurrences[at] == Member
    ensures Reads(rule, t, t[at])
  {
  }

  lemma RuleConcludesIsConcludes(rules: seq<Rule>, sides: nat, ins: Inputs, m: iset<Row>, x: Row)
    requires WellFormed(rules, sides)
    ensures Concludes(rules, ins, m, x) <==> exists r :: 0 <= r < |rules| && RuleConcludes(rules[r], ins, m, x)
  {
    if r :| 0 <= r < |rules| && RuleConcludes(rules[r], ins, m, x) {
      var t :| Fires(rules[r], t, ins) && MembersIn(rules[r], t, m) && rules[r].head(t) == x;
      if at :| 0 <= at < |t| && rules[r].occurrences[at] == Member {
        ReadsItsMember(rules[r], t, at);
        assert Edge(rules, ins, t[at], x);
      } else {
        assert Base(rules, ins, x);
      }
    }
    if Base(rules, ins, x) {
      var r, t :| 0 <= r < |rules| && !HasMember(rules[r]) && Fires(rules[r], t, ins) && rules[r].head(t) == x;
      assert MembersIn(rules[r], t, m);
      assert RuleConcludes(rules[r], ins, m, x);
    } else if Concludes(rules, ins, m, x) {
      var p :| p in m && Edge(rules, ins, p, x);
      var r, t :| 0 <= r < |rules| && HasMember(rules[r]) && Fires(rules[r], t, ins) && Reads(rules[r], t, p)
                  && rules[r].head(t) == x;
      assert MembersIn(rules[r], t, m);
      assert RuleConcludes(rules[r], ins, m, x);
    }
  }

  /** A step from a member of `m` is a conclusion of some member rule. */
  lemma EdgeIsRuleConcludes(rules: seq<Rule>, ins: Inputs, m: iset<Row>, p: Row, x: Row)
    requires p in m && Edge(rules, ins, p, x)
    ensures exists r :: 0 <= r < |rules| && HasMember(rules[r]) && RuleConcludes(rules[r], ins, m, x)
  {
    var r, t :| 0 <= r < |rules| && HasMember(rules[r]) && Fires(rules[r], t, ins) && Reads(rules[r], t, p)
                && rules[r].head(t) == x;
    assert MembersIn(rules[r], t, m);
    assert RuleConcludes(rules[r], ins, m, x);
  }

  lemma RuleConcludesIsEdge(rules: seq<Rule>, sides: nat, r: nat, ins: Inputs, m: iset<Row>, x: Row)
    requires WellFormed(rules, sides) && r < |rules| && HasMember(rules[r]) && RuleConcludes(rules[r], ins, m, x)
    ensures exists p :: p in m && Edge(rules, ins, p, x)
  {
    var t :| Fires(rules[r], t, ins) && MembersIn(rules[r], t, m) && rules[r].head(t) == x;
    var at :| 0 <= at < |t| && rules[r].occurrences[at] == Member;
    ReadsItsMember(rules[r], t, at);
    assert Edge(rules, ins, t[at], x);
  }

  ghost predicate RuleConcludesOn(rule: Rule, ins: Inputs, m: iset<Row>, side: nat, at: nat, delta: iset<Row>, x: Row) {
    at < |rule.occurrences| && rule.occurrences[at] == Input(side) && RuleConcludesAt(rule, ins, m, at, delta, x)
  }

  lemma RuleConcludesOnIsVia(rules: seq<Rule>, sides: nat, ins: Inputs, m: iset<Row>, side: nat, delta: iset<Row>,
                             x: Row)
    requires WellFormed(rules, sides)
    ensures ConcludesVia(rules, ins, m, side, delta, x)
       <==> exists r, at: nat :: 0 <= r < |rules| && RuleConcludesOn(rules[r], ins, m, side, at, delta, x)
  {
    if r, at: nat :| 0 <= r < |rules| && RuleConcludesOn(rules[r], ins, m, side, at, delta, x) {
      RuleGivesVia(rules, sides, ins, m, side, delta, x, r, at);
    }
    if ConcludesVia(rules, ins, m, side, delta, x) {
      ViaGivesRule(rules, ins, m, side, delta, x);
    }
  }

  lemma RuleGivesVia(rules: seq<Rule>, sides: nat, ins: Inputs, m: iset<Row>, side: nat, delta: iset<Row>, x: Row,
                     r: nat, at: nat)
    requires WellFormed(rules, sides) && r < |rules| && RuleConcludesOn(rules[r], ins, m, side, at, delta, x)
    ensures ConcludesVia(rules, ins, m, side, delta, x)
  {
    var t :| Fires(rules[r], t, ins) && MembersIn(rules[r], t, m) && at < |t| && t[at] in delta
             && rules[r].head(t) == x;
    assert Uses(rules[r], t, side, delta);
    if i :| 0 <= i < |t| && rules[r].occurrences[i] == Member {
      ReadsItsMember(rules[r], t, i);
      assert EdgeVia(rules, ins, side, delta, t[i], x);
    } else {
      assert BaseVia(rules, ins, side, delta, x);
    }
  }

  lemma ViaGivesRule(rules: seq<Rule>, ins: Inputs, m: iset<Row>, side: nat, delta: iset<Row>, x: Row)
    requires ConcludesVia(rules, ins, m, side, delta, x)
    ensures exists r, at: nat :: 0 <= r < |rules| && RuleConcludesOn(rules[r], ins, m, side, at, delta, x)
  {
    if BaseVia(rules, ins, side, delta, x) {
      var r, t :| 0 <= r < |rules| && !HasMember(rules[r]) && Fires(rules[r], t, ins)
                  && Uses(rules[r], t, side, delta) && rules[r].head(t) == x;
      var at :| 0 <= at < |t| && rules[r].occurrences[at] == Input(side) && t[at] in delta;
      assert MembersIn(rules[r], t, m);
      assert RuleConcludesOn(rules[r], ins, m, side, at, delta, x);
    } else {
      var p :| p in m && EdgeVia(rules, ins, side, delta, p, x);
      var r, t :| 0 <= r < |rules| && HasMember(rules[r]) && Fires(rules[r], t, ins) && Reads(rules[r], t, p)
                  && Uses(rules[r], t, side, delta) && rules[r].head(t) == x;
      var at :| 0 <= at < |t| && rules[r].occurrences[at] == Input(side) && t[at] in delta;
      assert MembersIn(rules[r], t, m);
      assert RuleConcludesOn(rules[r], ins, m, side, at, delta, x);
    }
  }
}

/** The meaning of a recursive view: rules, their least fixpoint, and what one
    delete-and-rederive pass over a changed side leaves behind. Rows are
    compared by equality here; `FixpointNode` relates stored representatives
    to these rows. */
module Datalog {
  import opened Rows

  datatype Occurrence = Input(side: nat) | Member

  /** One UNION term of a recursive CTE. `accepts` and `head` see one row per
      occurrence, in FROM order. */
  datatype Rule = Rule(occurrences: seq<Occurrence>, accepts: seq<Row> -> bool, head: seq<Row> -> Row)

  /** The set of rows each side of the node currently holds. */
  type Inputs = seq<iset<Row>>

  predicate HasMember(rule: Rule) {
    Member in rule.occurrences
  }

  predicate Mentions(rule: Rule, side: nat) {
    Input(side) in rule.occurrences
  }

  /** SQLite's grammar limit: at most one recursive reference per term. */
  predicate WellFormedRule(rule: Rule, sides: nat) {
    && (forall i, j | 0 <= i < j < |rule.occurrences| ::
          !(rule.occurrences[i] == Member && rule.occurrences[j] == Member))
    && (forall i | 0 <= i < |rule.occurrences| ::
          rule.occurrences[i].Input? ==> rule.occurrences[i].side < sides)
  }

  predicate WellFormed(rules: seq<Rule>, sides: nat) {
    forall r | 0 <= r < |rules| :: WellFormedRule(rules[r], sides)
  }

  /** `t` picks one accepted row per occurrence, the input rows from `ins`. */
  ghost predicate Fires(rule: Rule, t: seq<Row>, ins: Inputs) {
    && |t| == |rule.occurrences|
    && (forall i | 0 <= i < |t| && rule.occurrences[i].Input? ::
          rule.occurrences[i].side < |ins| && t[i] in ins[rule.occurrences[i].side])
    && rule.accepts(t)
  }

  /** The member occurrence of `t` picks `p`. */
  ghost predicate Reads(rule: Rule, t: seq<Row>, p: Row) {
    |t| == |rule.occurrences| && forall i | 0 <= i < |t| && rule.occurrences[i] == Member :: t[i] == p
  }

  /** Some occurrence of `side` picks its row from `delta`. */
  ghost predicate Uses(rule: Rule, t: seq<Row>, side: nat, delta: iset<Row>) {
    |t| == |rule.occurrences| && exists at :: 0 <= at < |t| && rule.occurrences[at] == Input(side) && t[at] in delta
  }

  /** A rule without a member occurrence concludes `x`. */
  ghost predicate Base(rules: seq<Rule>, ins: Inputs, x: Row) {
    exists r, t :: 0 <= r < |rules| && !HasMember(rules[r]) && Fires(rules[r], t, ins) && rules[r].head(t) == x
  }

  /** A rule reading the member `p` concludes `x`. */
  ghost predicate Edge(rules: seq<Rule>, ins: Inputs, p: Row, x: Row) {
    exists r, t ::
      && 0 <= r < |rules| && HasMember(rules[r]) && Fires(rules[r], t, ins) && Reads(rules[r], t, p)
      && rules[r].head(t) == x
  }

  ghost predicate BaseVia(rules: seq<Rule>, ins: Inputs, side: nat, delta: iset<Row>, x: Row) {
    exists r, t ::
      && 0 <= r < |rules| && !HasMember(rules[r]) && Fires(rules[r], t, ins) && Uses(rules[r], t, side, delta)
      && rules[r].head(t) == x
  }

  ghost predicate EdgeVia(rules: seq<Rule>, ins: Inputs, side: nat, delta: iset<Row>, p: Row, x: Row) {
    exists r, t ::
      && 0 <= r < |rules| && HasMember(rules[r]) && Fires(rules[r], t, ins) && Reads(rules[r], t, p)
      && Uses(rules[r], t, side, delta) && rules[r].head(t) == x
  }

  /** One application of the rules to `m` concludes `x`. */
  ghost predicate Concludes(rules: seq<Rule>, ins: Inputs, m: iset<Row>, x: Row) {
    Base(rules, ins, x) || exists p :: p in m && Edge(rules, ins, p, x)
  }

  ghost predicate ConcludesVia(rules: seq<Rule>, ins: Inputs, m: iset<Row>, side: nat, delta: iset<Row>, x: Row) {
    BaseVia(rules, ins, side, delta, x) || exists p :: p in m && EdgeVia(rules, ins, side, delta, p, x)
  }

  // ---------------------------------------------------------------- fixpoints

  /** `n` member rules lead from a row of `start` to `x` without leaving `within`. */
  ghost predicate Path(rules: seq<Rule>, ins: Inputs, start: iset<Row>, within: iset<Row>, n: nat, x: Row) {
    if n == 0 then x in start
    else x in within && exists p :: Path(rules, ins, start, within, n - 1, p) && Edge(rules, ins, p, x)
  }

  ghost predicate Reachable(rules: seq<Rule>, ins: Inputs, start: iset<Row>, within: iset<Row>, x: Row) {
    exists n: nat :: Path(rules, ins, start, within, n, x)
  }

  ghost function Reach(rules: seq<Rule>, ins: Inputs, start: iset<Row>, within: iset<Row>): iset<Row> {
    iset x | Reachable(rules, ins, start, within, x)
  }

  ghost function Outside(m: iset<Row>): iset<Row> {
    iset x | x !in m
  }

  ghost function Bases(rules: seq<Rule>, ins: Inputs): iset<Row> {
    iset x | Base(rules, ins, x)
  }

  /** The recursive view's meaning. */
  ghost function Lfp(rules: seq<Rule>, ins: Inputs): iset<Row> {
    Reach(rules, ins, Bases(rules, ins), Outside(iset{}))
  }

  ghost predicate StepClosed(rules: seq<Rule>, ins: Inputs, within: iset<Row>, s: iset<Row>) {
    forall p, x | p in s && Edge(rules, ins, p, x) && x in within :: x in s
  }

  ghost predicate Closed(rules: seq<Rule>, ins: Inputs, m: iset<Row>) {
    forall x | Concludes(rules, ins, m, x) :: x in m
  }

  lemma ReachStep(rules: seq<Rule>, ins: Inputs, start: iset<Row>, within: iset<Row>, p: Row, x: Row)
    requires p in Reach(rules, ins, start, within) && Edge(rules, ins, p, x) && x in within
    ensures x in Reach(rules, ins, start, within)
  {
    var n: nat :| Path(rules, ins, start, within, n, p);
    assert Path(rules, ins, start, within, n + 1, x);
  }

  lemma ReachStart(rules: seq<Rule>, ins: Inputs, start: iset<Row>, within: iset<Row>)
    ensures start <= Reach(rules, ins, start, within)
  {
    forall x | x in start ensures x in Reach(rules, ins, start, within) {
      assert Path(rules, ins, start, within, 0, x);
    }
  }

  lemma {:induction false} PathInside(rules: seq<Rule>, ins: Inputs, start: iset<Row>, within: iset<Row>,
                                      s: iset<Row>, n: nat, x: Row)
    requires start <= s && StepClosed(rules, ins, within, s)
    requires Path(rules, ins, start, within, n, x)
    ensures x in s
  {
    if n > 0 {
      var p :| Path(rules, ins, start, within, n - 1, p) && Edge(rules, ins, p, x);
      PathInside(rules, ins, start, within, s, n - 1, p);
    }
  }

  /** `Reach` is the least set that holds `start` and is closed under member rules. */
  lemma ReachLeast(rules: seq<Rule>, ins: Inputs, start: iset<Row>, within: iset<Row>, s: iset<Row>)
    requires start <= s && StepClosed(rules, ins, within, s)
    ensures Reach(rules, ins, start, within) <= s
  {
    forall x | x in Reach(rules, ins, start, within) ensures x in s {
      var n: nat :| Path(rules, ins, start, within, n, x);
      PathInside(rules, ins, start, within, s, n, x);
    }
  }

  lemma LfpClosed(rules: seq<Rule>, ins: Inputs)
    ensures Closed(rules, ins, Lfp(rules, ins))
  {
    var m := Lfp(rules, ins);
    ReachStart(rules, ins, Bases(rules, ins), Outside(iset{}));
    forall x | Concludes(rules, ins, m, x) ensures x in m {
      if !Base(rules, ins, x) {
        var p :| p in m && Edge(rules, ins, p, x);
        ReachStep(rules, ins, Bases(rules, ins), Outside(iset{}), p, x);
      }
    }
  }

  /** The least fixpoint is contained in every closed set. */
  lemma LfpLeast(rules: seq<Rule>, ins: Inputs, m: iset<Row>)
    requires Closed(rules, ins, m)
    ensures Lfp(rules, ins) <= m
  {
    forall p, x | p in m && Edge(rules, ins, p, x) ensures x in m {
      assert Concludes(rules, ins, m, x);
    }
    forall x | x in Bases(rules, ins) ensures x in m {
      assert Concludes(rules, ins, m, x);
    }
    ReachLeast(rules, ins, Bases(rules, ins), Outside(iset{}), m);
  }

  // ------------------------------------------------ one delete-and-rederive pass

  ghost function Gone(before: Inputs, after: Inputs, side: nat): iset<Row>
    requires side < |before| == |after|
  {
    before[side] - after[side]
  }

  ghost function Arrived(before: Inputs, after: Inputs, side: nat): iset<Row>
    requires side < |before| == |after|
  {
    after[side] - before[side]
  }

  /** Members with a derivation over the old inputs that uses a departed row. */
  ghost function DroppedSeed(rules: seq<Rule>, before: Inputs, after: Inputs, side: nat, m: iset<Row>): iset<Row>
    requires side < |before| == |after|
  {
    iset x | x in m && ConcludesVia(rules, before, m, side, Gone(before, after, side), x)
  }

  /** Members the delete pass drops: reached over the old inputs from those. */
  ghost function Dropped(rules: seq<Rule>, before: Inputs, after: Inputs, side: nat, m: iset<Row>): iset<Row>
    requires side < |before| == |after|
  {
    Reach(rules, before, DroppedSeed(rules, before, after, side, m), m)
  }

  /** Dropped members that still have a derivation, and what arrived rows derive. */
  ghost function FreshSeed(rules: seq<Rule>, before: Inputs, after: Inputs, side: nat, kept: iset<Row>,
                           dropped: iset<Row>): iset<Row>
    requires side < |before| == |after|
  {
    iset x |
      || (x in dropped && Concludes(rules, after, kept, x))
      || (x !in kept && ConcludesVia(rules, after, kept, side, Arrived(before, after, side), x))
  }

  /** Members stored again or for the first time, derived over the new inputs. */
  ghost function Fresh(rules: seq<Rule>, before: Inputs, after: Inputs, side: nat, kept: iset<Row>,
                       dropped: iset<Row>): iset<Row>
    requires side < |before| == |after|
  {
    Reach(rules, after, FreshSeed(rules, before, after, side, kept, dropped), Outside(kept))
  }

  /** The member set one pass of `fixpoint` leaves when `side` changed. */
  ghost function AfterSide(rules: seq<Rule>, before: Inputs, after: Inputs, side: nat, m: iset<Row>): iset<Row>
    requires side < |before| == |after|
  {
    var dropped := Dropped(rules, before, after, side, m);
    var kept := m - dropped;
    kept + Fresh(rules, before, after, side, kept, dropped)
  }

  /** The member set after the passes for sides `0..k`. */
  ghost function AfterSides(rules: seq<Rule>, before: Inputs, after: Inputs, m: iset<Row>, k: nat): iset<Row>
    requires k <= |before| == |after|
  {
    if k == 0 then m
    else AfterSide(rules, before, after, k - 1, AfterSides(rules, before, after, m, k - 1))
  }

  // --------------------------------------------------- how derivations depend on inputs

  ghost predicate Below(g: Inputs, h: Inputs) {
    |g| == |h| && forall s, x | 0 <= s < |g| && x in g[s] :: x in h[s]
  }

  lemma FiresMonotone(rule: Rule, t: seq<Row>, g: Inputs, h: Inputs)
    requires Fires(rule, t, g) && Below(g, h)
    ensures Fires(rule, t, h)
  {
  }

  lemma BaseMonotone(rules: seq<Rule>, g: Inputs, h: Inputs, x: Row)
    requires Base(rules, g, x) && Below(g, h)
    ensures Base(rules, h, x)
  {
    var r, t :| 0 <= r < |rules| && !HasMember(rules[r]) && Fires(rules[r], t, g) && rules[r].head(t) == x;
    FiresMonotone(rules[r], t, g, h);
  }

  lemma EdgeMonotone(rules: seq<Rule>, g: Inputs, h: Inputs, p: Row, x: Row)
    requires Edge(rules, g, p, x) && Below(g, h)
    ensures Edge(rules, h, p, x)
  {
    var r, t :| 0 <= r < |rules| && HasMember(rules[r]) && Fires(rules[r], t, g) && Reads(rules[r], t, p)
                && rules[r].head(t) == x;
    FiresMonotone(rules[r], t, g, h);
  }

  lemma ConcludesMonotone(rules: seq<Rule>, g: Inputs, h: Inputs, m: iset<Row>, m': iset<Row>, x: Row)
    requires Concludes(rules, g, m, x) && Below(g, h) && m <= m'
    ensures Concludes(rules, h, m', x)
  {
    if Base(rules, g, x) {
      BaseMonotone(rules, g, h, x);
    } else {
      var p :| p in m && Edge(rules, g, p, x);
      EdgeMonotone(rules, g, h, p, x);
    }
  }

  lemma ViaConcludes(rules: seq<Rule>, ins: Inputs, m: iset<Row>, side: nat, delta: iset<Row>, x: Row)
    requires ConcludesVia(rules, ins, m, side, delta, x)
    ensures Concludes(rules, ins, m, x)
  {
    if BaseVia(rules, ins, side, delta, x) {
      assert Base(rules, ins, x);
    } else {
      var p :| p in m && EdgeVia(rules, ins, side, delta, p, x);
      assert Edge(rules, ins, p, x);
    }
  }

  lemma {:induction false} PathMonotone(rules: seq<Rule>, g: Inputs, h: Inputs, start: iset<Row>, start': iset<Row>,
                                        within: iset<Row>, within': iset<Row>, n: nat, x: Row)
    requires Below(g, h) && start <= start' && within <= within' && Path(rules, g, start, within, n, x)
    ensures Path(rules, h, start', within', n, x)
  {
    if n > 0 {
      var p :| Path(rules, g, start, within, n - 1, p) && Edge(rules, g, p, x);
      PathMonotone(rules, g, h, start, start', within, within', n - 1, p);
      EdgeMonotone(rules, g, h, p, x);
    }
  }

  /** `h` holds every row of `g`, except perhaps rows of `delta` on `side`. */
  ghost predicate BelowExcept(g: Inputs, h: Inputs, side: nat, delta: iset<Row>) {
    |g| == |h| && forall s, x | 0 <= s < |g| && x in g[s] :: x in h[s] || (s == side && x in delta)
  }

  lemma FiresSplit(rule: Rule, t: seq<Row>, g: Inputs, h: Inputs, side: nat, delta: iset<Row>)
    requires Fires(rule, t, g) && BelowExcept(g, h, side, delta)
    ensures Fires(rule, t, h) || Uses(rule, t, side, delta)
  {
    if i :| 0 <= i < |t| && rule.occurrences[i].Input? && t[i] !in h[rule.occurrences[i].side] {
      var s, x := rule.occurrences[i].side, t[i];
      assert x in g[s] && x !in h[s];
      assert s == side && x in delta;
      assert rule.occurrences[i] == Input(s);
    }
  }

  lemma BaseSplit(rules: seq<Rule>, g: Inputs, h: Inputs, side: nat, delta: iset<Row>, x: Row)
    requires Base(rules, g, x) && BelowExcept(g, h, side, delta)
    ensures Base(rules, h, x) || BaseVia(rules, g, side, delta, x)
  {
    var r, t :| 0 <= r < |rules| && !HasMember(rules[r]) && Fires(rules[r], t, g) && rules[r].head(t) == x;
    FiresSplit(rules[r], t, g, h, side, delta);
  }

  lemma EdgeSplit(rules: seq<Rule>, g: Inputs, h: Inputs, side: nat, delta: iset<Row>, p: Row, x: Row)
    requires Edge(rules, g, p, x) && BelowExcept(g, h, side, delta)
    ensures Edge(rules, h, p, x) || EdgeVia(rules, g, side, delta, p, x)
  {
    var r, t :| 0 <= r < |rules| && HasMember(rules[r]) && Fires(rules[r], t, g) && Reads(rules[r], t, p)
                && rules[r].head(t) == x;
    FiresSplit(rules[r], t, g, h, side, delta);
  }

  lemma ViaMonotone(rules: seq<Rule>, g: Inputs, h: Inputs, m: iset<Row>, side: nat, delta: iset<Row>, x: Row)
    requires ConcludesVia(rules, g, m, side, delta, x) && Below(g, h)
    ensures ConcludesVia(rules, h, m, side, delta, x)
  {
    if BaseVia(rules, g, side, delta, x) {
      var r, t :| 0 <= r < |rules| && !HasMember(rules[r]) && Fires(rules[r], t, g) && Uses(rules[r], t, side, delta)
                  && rules[r].head(t) == x;
      FiresMonotone(rules[r], t, g, h);
    } else {
      var p :| p in m && EdgeVia(rules, g, side, delta, p, x);
      var r, t :| 0 <= r < |rules| && HasMember(rules[r]) && Fires(rules[r], t, g) && Reads(rules[r], t, p)
                  && Uses(rules[r], t, side, delta) && rules[r].head(t) == x;
      FiresMonotone(rules[r], t, g, h);
      assert EdgeVia(rules, h, side, delta, p, x);
    }
  }
}

/** What supports the members between the passes for two sides. */
module MixedSupport {
  import opened Rows
  import opened Datalog
  import opened Rederive

  /** Sides below `k` new, the others old. */
  ghost function Mixed(before: Inputs, after: Inputs, k: nat): (mixed: Inputs)
    requires |before| == |after|
    ensures |mixed| == |before|
  {
    seq(|before|, i requires 0 <= i < |before| => if i < k then after[i] else before[i])
  }

  /** After the passes for the sides below `k`, every member has a well-founded
      support over the sides passed as they are now and the others as they were. */
  ghost predicate KeepsSupport(rules: seq<Rule>, before: Inputs, after: Inputs, k: nat)
    requires k <= |before| == |after|
  {
    Supported(rules, iset{}, Mixed(before, after, k), AfterSides(rules, before, after, Lfp(rules, before), k))
  }

  ghost predicate ChangesBelow(before: Inputs, after: Inputs, k: nat)
    requires k <= |before| == |after|
  {
    exists i: nat :: i < k && before[i] != after[i]
  }

  ghost predicate ArrivesFrom(before: Inputs, after: Inputs, k: nat)
    requires k <= |before| == |after|
  {
    exists s: nat :: k <= s < |before| && Arrived(before, after, s) != iset{}
  }

  /** What a caller can check: nothing is passed yet, or nothing arrives on the sides
      still to be passed and the sides passed so far are a safe batch. */
  ghost predicate SafeUpTo(steps: iset<nat>, before: Inputs, after: Inputs, k: nat)
    requires k <= |before| == |after|
  {
    || !ChangesBelow(before, after, k)
    || (!ArrivesFrom(before, after, k) && SafeBatch(steps, before, Mixed(before, after, k)))
  }

  // ------------------------------------------------------------------- it holds

  lemma SureOverMixed(rules: seq<Rule>, g: Inputs, after: Inputs, m: iset<Row>)
    requires Below(after, g) && Lfp(rules, after) <= m
    ensures Lfp(rules, after) <= Grounded(rules, iset{}, g, m)
  {
    var sure := Lfp(rules, after);
    var start := m * (iset{} + Bases(rules, g));
    var good := sure * Grounded(rules, iset{}, g, m);
    ReachStart(rules, g, start, m);
    ReachStart(rules, after, Bases(rules, after), Outside(iset{}));
    forall x | x in Bases(rules, after) ensures x in good {
      BaseMonotone(rules, after, g, x);
    }
    forall p, x | p in good && Edge(rules, after, p, x) ensures x in good {
      EdgeMonotone(rules, after, g, p, x);
      ReachStep(rules, after, Bases(rules, after), Outside(iset{}), p, x);
      ReachStep(rules, g, start, m, p, x);
    }
    ReachLeast(rules, after, Bases(rules, after), Outside(iset{}), good);
  }

  /** Support that ends in sure rows is support over any inputs that hold the new ones. */
  lemma SupportWithoutSure(rules: seq<Rule>, h: Inputs, g: Inputs, after: Inputs, m: iset<Row>)
    requires Supported(rules, Lfp(rules, after), h, m) && Below(h, g) && Below(after, g) && Lfp(rules, after) <= m
    ensures Supported(rules, iset{}, g, m)
  {
    var sure := Lfp(rules, after);
    var start := m * (iset{} + Bases(rules, g));
    SureOverMixed(rules, g, after, m);
    ReachStart(rules, g, start, m);
    forall x | x in m * (sure + Bases(rules, h)) ensures x in Grounded(rules, iset{}, g, m) {
      if x !in sure {
        BaseMonotone(rules, h, g, x);
      }
    }
    forall p, x | p in Grounded(rules, iset{}, g, m) && Edge(rules, h, p, x) && x in m
      ensures x in Grounded(rules, iset{}, g, m) {
      EdgeMonotone(rules, h, g, p, x);
      ReachStep(rules, g, start, m, p, x);
    }
    ReachLeast(rules, h, m * (sure + Bases(rules, h)), m, Grounded(rules, iset{}, g, m));
  }

  /** What a pass stores is derived over the new inputs from what it kept. */
  lemma FreshSupported(rules: seq<Rule>, sure: iset<Row>, before: Inputs, after: Inputs, side: nat, g: Inputs,
                       m: iset<Row>)
    requires side < |before| == |after| && Below(after, g)
    requires Supported(rules, sure, g, m - Dropped(rules, before, after, side, m))
    ensures Supported(rules, sure, g, AfterSide(rules, before, after, side, m))
  {
    var dropped := Dropped(rules, before, after, side, m);
    var kept := m - dropped;
    var seed := FreshSeed(rules, before, after, side, kept, dropped);
    var stored := Reach(rules, after, seed, Outside(kept));
    var all := kept + stored;
    var start := all * (sure + Bases(rules, g));
    var good := stored * Grounded(rules, sure, g, all);
    GroundedMonotone(rules, sure, g, kept, all);
    ReachStart(rules, after, seed, Outside(kept));
    ReachStart(rules, g, start, all);
    forall x | x in seed ensures x in good {
      SeedConcluded(rules, before, after, side, kept, dropped, x);
      if Base(rules, after, x) {
        BaseMonotone(rules, after, g, x);
      } else {
        var p :| p in kept && Edge(rules, after, p, x);
        EdgeMonotone(rules, after, g, p, x);
        ReachStep(rules, g, start, all, p, x);
      }
    }
    forall p, x | p in good && Edge(rules, after, p, x) && x in Outside(kept) ensures x in good {
      ReachStep(rules, after, seed, Outside(kept), p, x);
      EdgeMonotone(rules, after, g, p, x);
      ReachStep(rules, g, start, all, p, x);
    }
    ReachLeast(rules, after, seed, Outside(kept), good);
  }

  lemma SeedConcluded(rules: seq<Rule>, before: Inputs, after: Inputs, side: nat, kept: iset<Row>, dropped: iset<Row>,
                      x: Row)
    requires side < |before| == |after| && x in FreshSeed(rules, before, after, side, kept, dropped)
    ensures Concludes(rules, after, kept, x)
  {
    if ConcludesVia(rules, after, kept, side, Arrived(before, after, side), x) {
      ViaConcludes(rules, after, kept, side, Arrived(before, after, side), x);
    }
  }

  lemma NothingArrived(before: Inputs, after: Inputs, s: nat)
    requires s < |before| == |after| && Arrived(before, after, s) == iset{}
    ensures before[s] * after[s] == after[s]
  {
    forall x | x in after[s] ensures x in before[s] {
      assert x !in Arrived(before, after, s);
    }
  }

  /** Without arrivals to come, the new fixpoint is already stored. */
  lemma SureStored(rules: seq<Rule>, before: Inputs, after: Inputs, k: nat)
    requires k <= |before| == |after| && !ArrivesFrom(before, after, k)
    ensures Lfp(rules, after) <= AfterSides(rules, before, after, Lfp(rules, before), k)
    ensures Below(after, Mixed(before, after, k))
  {
    forall s: nat | k <= s < |before| ensures before[s] * after[s] == after[s] {
      NothingArrived(before, after, s);
    }
    assert Processed(before, after, k) == after;
    ClosedAfterSides(rules, before, after, k);
    LfpLeast(rules, after, AfterSides(rules, before, after, Lfp(rules, before), k));
  }

  /** Passes without departures keep a support over inputs that hold the new ones. */
  lemma {:induction false} QuietPassesKeep(rules: seq<Rule>, sure: iset<Row>, before: Inputs, after: Inputs,
                                           g: Inputs, i: nat, k: nat)
    requires i <= k <= |before| == |after| && Below(after, g)
    requires forall s: nat | i <= s < k :: Gone(before, after, s) == iset{}
    requires Supported(rules, sure, g, AfterSides(rules, before, after, Lfp(rules, before), i))
    ensures Supported(rules, sure, g, AfterSides(rules, before, after, Lfp(rules, before), k))
  {
    if i < k {
      QuietPassesKeep(rules, sure, before, after, g, i, k - 1);
      QuietPassKeeps(rules, sure, before, after, g, k - 1, AfterSides(rules, before, after, Lfp(rules, before), k - 1));
    }
  }

  lemma QuietPassKeeps(rules: seq<Rule>, sure: iset<Row>, before: Inputs, after: Inputs, g: Inputs, side: nat,
                       m: iset<Row>)
    requires side < |before| == |after| && Below(after, g) && Gone(before, after, side) == iset{}
    requires Supported(rules, sure, g, m)
    ensures Supported(rules, sure, g, AfterSide(rules, before, after, side, m))
  {
    NothingDropped(rules, before, after, side, m);
    assert m - iset{} == m;
    FreshSupported(rules, sure, before, after, side, g, m);
  }

  lemma SupportMonotone(rules: seq<Rule>, sure: iset<Row>, h: Inputs, g: Inputs, m: iset<Row>)
    requires Supported(rules, sure, h, m) && Below(h, g)
    ensures Supported(rules, sure, g, m)
  {
    var start := m * (sure + Bases(rules, g));
    ReachStart(rules, g, start, m);
    forall x | x in m * (sure + Bases(rules, h)) ensures x in Grounded(rules, sure, g, m) {
      if x !in sure {
        BaseMonotone(rules, h, g, x);
      }
    }
    forall p, x | p in Grounded(rules, sure, g, m) && Edge(rules, h, p, x) && x in m
      ensures x in Grounded(rules, sure, g, m) {
      EdgeMonotone(rules, h, g, p, x);
      ReachStep(rules, g, start, m, p, x);
    }
    ReachLeast(rules, h, m * (sure + Bases(rules, h)), m, Grounded(rules, sure, g, m));
  }

  lemma {:induction false} NothingPassed(rules: seq<Rule>, before: Inputs, after: Inputs, k: nat)
    requires k <= |before| == |after| && !ChangesBelow(before, after, k)
    ensures AfterSides(rules, before, after, Lfp(rules, before), k) == Lfp(rules, before)
    ensures Mixed(before, after, k) == before
  {
    if k > 0 {
      assert !ChangesBelow(before, after, k - 1);
      assert before[k - 1] == after[k - 1];
      NothingPassed(rules, before, after, k - 1);
      UnchangedSide(rules, before, after, k - 1, Lfp(rules, before));
    }
  }

  /** The pass for the only departing side below `k`. */
  lemma DepartureKeeps(rules: seq<Rule>, before: Inputs, after: Inputs, j: nat, k: nat, m: iset<Row>)
    requires j < k <= |before| == |after| && !ArrivesFrom(before, after, k)
    requires forall s: nat | s < k && s != j :: Gone(before, after, s) == iset{}
    requires Supported(rules, Lfp(rules, after), Surviving(before, after, j), m)
    ensures Supported(rules, Lfp(rules, after), Mixed(before, after, k), AfterSide(rules, before, after, j, m))
  {
    var sure, g := Lfp(rules, after), Mixed(before, after, k);
    SureStored(rules, before, after, k);
    KeptSupported(rules, sure, before, after, j, m);
    SurvivingBelowMixed(before, after, j, k);
    SupportMonotone(rules, sure, Surviving(before, after, j + 1), g, m - Dropped(rules, before, after, j, m));
    FreshSupported(rules, sure, before, after, j, g, m);
  }

  lemma SurvivingBelowMixed(before: Inputs, after: Inputs, j: nat, k: nat)
    requires j < k <= |before| == |after|
    requires forall s: nat | s < k && s != j :: Gone(before, after, s) == iset{}
    ensures Below(Surviving(before, after, j + 1), Mixed(before, after, k))
  {
    forall s: nat, x | s < |before| && x in Surviving(before, after, j + 1)[s] ensures x in Mixed(before, after, k)[s] {
      assert s < k && s != j ==> x !in Gone(before, after, s);
    }
  }

  /** The holding half. */
  lemma SupportHolds(rules: seq<Rule>, steps: iset<nat>, before: Inputs, after: Inputs, k: nat)
    requires k <= |before| == |after| && StepsWithin(rules, steps) && SafeUpTo(steps, before, after, k)
    ensures KeepsSupport(rules, before, after, k)
  {
    var g := Mixed(before, after, k);
    if !ChangesBelow(before, after, k) {
      NothingPassed(rules, before, after, k);
      LfpSupported(rules, iset{}, before);
    } else {
      SureStored(rules, before, after, k);
      MixedChanges(before, after, k);
      var m := AfterSides(rules, before, after, Lfp(rules, before), k);
      if NoStepArrivals(steps, before, g) {
        forall s: nat | s < |before| && s in steps ensures Arrived(before, after, s) == iset{} {
          assert s < k ==> Arrived(before, g, s) == Arrived(before, after, s);
        }
        SupportedAfterSides(rules, steps, before, after, k);
        SupportWithoutSure(rules, Surviving(before, after, k), g, after, m);
      } else {
        SupportedAtDeparture(rules, steps, before, after, k);
        SupportWithoutSure(rules, g, g, after, m);
      }
    }
  }

  lemma MixedChanges(before: Inputs, after: Inputs, k: nat)
    requires k <= |before| == |after|
    ensures forall s: nat | s < k :: Arrived(before, Mixed(before, after, k), s) == Arrived(before, after, s)
    ensures forall s: nat | s < k :: Gone(before, Mixed(before, after, k), s) == Gone(before, after, s)
    ensures forall s: nat | k <= s < |before| ::
      Arrived(before, Mixed(before, after, k), s) == iset{} && Gone(before, Mixed(before, after, k), s) == iset{}
  {
  }

  lemma SupportedAtDeparture(rules: seq<Rule>, steps: iset<nat>, before: Inputs, after: Inputs, k: nat)
    requires k <= |before| == |after| && StepsWithin(rules, steps) && !ArrivesFrom(before, after, k)
    requires SafeBatch(steps, before, Mixed(before, after, k))
    requires !NoStepArrivals(steps, before, Mixed(before, after, k))
    ensures Supported(rules, Lfp(rules, after), Mixed(before, after, k),
                      AfterSides(rules, before, after, Lfp(rules, before), k))
  {
    if j: nat :| j < k && Gone(before, after, j) != iset{} {
      OnlyDeparture(steps, before, after, k, j);
      DepartureSupported(rules, steps, before, after, j, k);
    } else {
      NoDepartureKeeps(rules, before, after, k);
    }
  }

  lemma DepartureSupported(rules: seq<Rule>, steps: iset<nat>, before: Inputs, after: Inputs, j: nat, k: nat)
    requires j < k <= |before| == |after| && StepsWithin(rules, steps) && !ArrivesFrom(before, after, k)
    requires QuietBefore(steps, before, after, j) && forall s: nat | s < k && s != j :: Gone(before, after, s) == iset{}
    ensures Supported(rules, Lfp(rules, after), Mixed(before, after, k),
                      AfterSides(rules, before, after, Lfp(rules, before), k))
  {
    SupportedUpTo(rules, steps, before, after, j, j);
    DepartureKeeps(rules, before, after, j, k, AfterSides(rules, before, after, Lfp(rules, before), j));
    SureStored(rules, before, after, k);
    QuietPassesKeep(rules, Lfp(rules, after), before, after, Mixed(before, after, k), j + 1, k);
  }

  lemma NoDepartureKeeps(rules: seq<Rule>, before: Inputs, after: Inputs, k: nat)
    requires k <= |before| == |after| && !ArrivesFrom(before, after, k)
    requires forall s: nat | s < k :: Gone(before, after, s) == iset{}
    ensures Supported(rules, Lfp(rules, after), Mixed(before, after, k),
                      AfterSides(rules, before, after, Lfp(rules, before), k))
  {
    var sure, g := Lfp(rules, after), Mixed(before, after, k);
    SureStored(rules, before, after, k);
    LfpSupported(rules, sure, before);
    forall s: nat, x | s < |before| && x in before[s] ensures x in g[s] {
      assert s < k ==> x !in Gone(before, after, s);
    }
    SupportMonotone(rules, sure, before, g, Lfp(rules, before));
    QuietPassesKeep(rules, sure, before, after, g, 0, k);
  }

  lemma OnlyDeparture(steps: iset<nat>, before: Inputs, after: Inputs, k: nat, j: nat)
    requires j < k <= |before| == |after| && Gone(before, after, j) != iset{}
    requires SafeBatch(steps, before, Mixed(before, after, k))
    requires !NoStepArrivals(steps, before, Mixed(before, after, k))
    ensures QuietBefore(steps, before, after, j)
    ensures forall s: nat | s < k && s != j :: Gone(before, after, s) == iset{}
  {
    var g := Mixed(before, after, k);
    MixedChanges(before, after, k);
    assert QuietBefore(steps, before, g, j);
    assert forall s: nat | s < |before| && Gone(before, g, s) != iset{} :: QuietBefore(steps, before, g, s);
  }

  // ------------------------------------------------------------------- it breaks

  /** Support over inputs is membership in their least fixpoint. */
  lemma GroundedWithinLfp(rules: seq<Rule>, g: Inputs, m: iset<Row>)
    ensures Grounded(rules, iset{}, g, m) <= Lfp(rules, g)
  {
    ReachStart(rules, g, Bases(rules, g), Outside(iset{}));
    forall p, x | p in Lfp(rules, g) && Edge(rules, g, p, x) ensures x in Lfp(rules, g) {
      ReachStep(rules, g, Bases(rules, g), Outside(iset{}), p, x);
    }
    ReachLeast(rules, g, m * (iset{} + Bases(rules, g)), m, Lfp(rules, g));
  }

  /** `X` follows from the row `l` of one side together with the row `a` of another. */
  function Pair(i: nat, l: Row, s: nat, a: Row): seq<Rule> {
    [Rule([Input(i), Input(s)], t => |t| == 2 && t[0] == l && t[1] == a, t => X)]
  }

  /** `X` follows from either row alone. */
  function Either(i: nat, b: Row, s: nat, a: Row): seq<Rule> {
    [Pick(i, {b}, X), Pick(s, {a}, X)]
  }

  ghost predicate NoMembers(rules: seq<Rule>) {
    forall r | 0 <= r < |rules| :: !HasMember(rules[r])
  }

  lemma PassKeeps(rules: seq<Rule>, before: Inputs, after: Inputs, side: nat, m: iset<Row>, x: Row)
    requires side < |before| == |after| && NoMembers(rules) && x in m
    requires !BaseVia(rules, before, side, Gone(before, after, side), x)
    ensures x in AfterSide(rules, before, after, side, m)
  {
    if x in Dropped(rules, before, after, side, m) {
      ReachEntry(rules, before, DroppedSeed(rules, before, after, side, m), m, x);
    }
  }

  lemma {:induction false} PassesKeep(rules: seq<Rule>, before: Inputs, after: Inputs, i: nat, k: nat, x: Row)
    requires i <= k <= |before| == |after| && NoMembers(rules)
    requires x in AfterSides(rules, before, after, Lfp(rules, before), i)
    requires forall s: nat | i <= s < k :: !BaseVia(rules, before, s, Gone(before, after, s), x)
    ensures x in AfterSides(rules, before, after, Lfp(rules, before), k)
  {
    if i < k {
      PassesKeep(rules, before, after, i, k - 1, x);
      PassKeeps(rules, before, after, k - 1, AfterSides(rules, before, after, Lfp(rules, before), k - 1), x);
    }
  }

  lemma PairBase(i: nat, l: Row, s: nat, a: Row, ins: Inputs, side: nat, delta: iset<Row>)
    requires i < |ins| && s < |ins|
    ensures NoMembers(Pair(i, l, s, a)) && WellFormed(Pair(i, l, s, a), |ins|)
    ensures Base(Pair(i, l, s, a), ins, X) <==> l in ins[i] && a in ins[s]
    ensures BaseVia(Pair(i, l, s, a), ins, side, delta, X) ==> l in ins[i]
    ensures l in ins[i] && a in ins[s] && side == i && l in delta ==> BaseVia(Pair(i, l, s, a), ins, side, delta, X)
  {
    var rules := Pair(i, l, s, a);
    assert rules[0].occurrences == [Input(i), Input(s)];
    if l in ins[i] && a in ins[s] {
      var t := [l, a];
      assert Fires(rules[0], t, ins) && rules[0].head(t) == X;
      assert side == i && l in delta ==>
               rules[0].occurrences[0] == Input(side) && t[0] in delta && Uses(rules[0], t, side, delta);
    }
    if Base(rules, ins, X) {
      var r, t :| 0 <= r < |rules| && !HasMember(rules[r]) && Fires(rules[r], t, ins) && rules[r].head(t) == X;
      assert rules[r].occurrences[0].Input? && rules[r].occurrences[1].Input?;
    }
    if BaseVia(rules, ins, side, delta, X) {
      var r, t :| 0 <= r < |rules| && !HasMember(rules[r]) && Fires(rules[r], t, ins)
                  && Uses(rules[r], t, side, delta) && rules[r].head(t) == X;
      assert rules[r].occurrences[0].Input?;
    }
  }

  lemma EitherBase(i: nat, b: Row, s: nat, a: Row, ins: Inputs, side: nat, delta: iset<Row>)
    requires i < |ins| && s < |ins|
    ensures NoMembers(Either(i, b, s, a)) && WellFormed(Either(i, b, s, a), |ins|)
    ensures Base(Either(i, b, s, a), ins, X) <==> b in ins[i] || a in ins[s]
    ensures BaseVia(Either(i, b, s, a), ins, side, delta, X) ==> side == i || side == s
  {
    var rules := Either(i, b, s, a);
    assert rules[0].occurrences == [Input(i)] && rules[1].occurrences == [Input(s)];
    if b in ins[i] {
      assert Fires(rules[0], [b], ins) && rules[0].head([b]) == X;
    }
    if a in ins[s] {
      assert Fires(rules[1], [a], ins) && rules[1].head([a]) == X;
    }
    if Base(rules, ins, X) {
      var r, t :| 0 <= r < |rules| && !HasMember(rules[r]) && Fires(rules[r], t, ins) && rules[r].head(t) == X;
      assert rules[r].occurrences[0].Input?;
    }
  }

  /** A set of member-free rules concludes nothing but `X`. */
  lemma OnlyX(rules: seq<Rule>, ins: Inputs)
    requires NoMembers(rules) && (forall r, t | 0 <= r < |rules| :: rules[r].head(t) == X) && !Base(rules, ins, X)
    ensures X !in Lfp(rules, ins)
  {
    ReachLeast(rules, ins, Bases(rules, ins), Outside(iset{}), iset{});
  }

  /** An arrival below `k` meets an arrival from `k` on. */
  lemma ArrivalsMeet(before: Inputs, after: Inputs, i: nat, l: Row, s: nat, a: Row, k: nat)
    requires i < k <= s < |before| == |after| && l in Arrived(before, after, i) && a in Arrived(before, after, s)
    ensures WellFormed(Pair(i, l, s, a), |before|) && NoMembers(Pair(i, l, s, a))
    ensures X in AfterSides(Pair(i, l, s, a), before, after, Lfp(Pair(i, l, s, a), before), k)
    ensures X !in Lfp(Pair(i, l, s, a), Mixed(before, after, k))
  {
    var rules := Pair(i, l, s, a);
    var m := AfterSides(rules, before, after, Lfp(rules, before), i);
    var kept := m - Dropped(rules, before, after, i, m);
    PairBase(i, l, s, a, after, i, Arrived(before, after, i));
    ReachStart(rules, after, FreshSeed(rules, before, after, i, kept, Dropped(rules, before, after, i, m)),
               Outside(kept));
    assert ConcludesVia(rules, after, kept, i, Arrived(before, after, i), X);
    LastPass(rules, before, after, Lfp(rules, before), i + 1, m);
    forall side: nat | i + 1 <= side < k ensures !BaseVia(rules, before, side, Gone(before, after, side), X) {
      PairBase(i, l, s, a, before, side, Gone(before, after, side));
    }
    PassesKeep(rules, before, after, i + 1, k, X);
    PairBase(i, l, s, a, Mixed(before, after, k), i, iset{});
    OnlyX(rules, Mixed(before, after, k));
  }

  /** The pass that takes `b` away stores `X` again through `a`. */
  lemma Restores(before: Inputs, after: Inputs, i: nat, b: Row, s: nat, a: Row, m: iset<Row>)
    requires i < |before| == |after| && s < |before| && a in after[s] && X in m
    ensures X in AfterSide(Either(i, b, s, a), before, after, i, m)
  {
    var rules := Either(i, b, s, a);
    var dropped := Dropped(rules, before, after, i, m);
    var kept := m - dropped;
    EitherBase(i, b, s, a, after, i, iset{});
    ReachStart(rules, after, FreshSeed(rules, before, after, i, kept, dropped), Outside(kept));
    assert X in dropped ==> Concludes(rules, after, kept, X);
  }

  lemma EitherQuiet(before: Inputs, after: Inputs, i: nat, b: Row, s: nat, a: Row, k: nat)
    requires i < k <= s < |before| == |after|
    ensures forall side: nat | side < k && side != i ::
              !BaseVia(Either(i, b, s, a), before, side, Gone(before, after, side), X)
  {
    forall side: nat | side < k && side != i
      ensures !BaseVia(Either(i, b, s, a), before, side, Gone(before, after, side), X) {
      EitherBase(i, b, s, a, before, side, Gone(before, after, side));
    }
  }

  /** A departure below `k` is made up for by an arrival from `k` on. */
  lemma ArrivalReplaces(before: Inputs, after: Inputs, i: nat, b: Row, s: nat, a: Row, k: nat)
    requires i < k <= s < |before| == |after| && b in Gone(before, after, i) && a in Arrived(before, after, s)
    ensures WellFormed(Either(i, b, s, a), |before|) && NoMembers(Either(i, b, s, a))
    ensures X in AfterSides(Either(i, b, s, a), before, after, Lfp(Either(i, b, s, a), before), k)
    ensures X !in Lfp(Either(i, b, s, a), Mixed(before, after, k))
  {
    var rules := Either(i, b, s, a);
    EitherBase(i, b, s, a, before, i, iset{});
    ReachStart(rules, before, Bases(rules, before), Outside(iset{}));
    EitherQuiet(before, after, i, b, s, a, k);
    PassesKeep(rules, before, after, 0, i, X);
    Restores(before, after, i, b, s, a, AfterSides(rules, before, after, Lfp(rules, before), i));
    PassesKeep(rules, before, after, i + 1, k, X);
    EitherBase(i, b, s, a, Mixed(before, after, k), i, iset{});
    OnlyX(rules, Mixed(before, after, k));
  }

  lemma SpringsEarlier(steps: iset<nat>, before: Inputs, after: Inputs, n: nat, j: nat, l: Row, k: nat, b: set<Row>,
                       s: nat, a: Row)
    requires n <= |before| == |after| && Springs(steps, before, Mixed(before, after, n), j, l, k, b, s, a)
    ensures WellFormed(Trap(j, l, k, b, s, a), |before|) && StepsWithin(Trap(j, l, k, b, s, a), steps)
    ensures X in AfterSides(Trap(j, l, k, b, s, a), before, after, Lfp(Trap(j, l, k, b, s, a), before), n)
    ensures X !in Lfp(Trap(j, l, k, b, s, a), Mixed(before, after, n))
  {
    MixedChanges(before, after, n);
    assert Gone(before, Mixed(before, after, n), j) != iset{} && Arrived(before, Mixed(before, after, n), s) != iset{};
    TrapShape(j, l, k, b, s, a, |before|);
    TrapSprings(j, l, k, b, s, a, before, after, n);
    TrapEmpty(j, l, k, b, s, a, Mixed(before, after, n));
  }

  /** The breaking half: rules, and a member that nothing supports any more or yet. */
  lemma SupportBreaks(steps: iset<nat>, before: Inputs, after: Inputs, k: nat) returns (rules: seq<Rule>, stale: Row)
    requires k <= |before| == |after| && !SafeUpTo(steps, before, after, k)
    ensures WellFormed(rules, |before|) && StepsWithin(rules, steps)
    ensures stale in AfterSides(rules, before, after, Lfp(rules, before), k)
    ensures stale !in Lfp(rules, Mixed(before, after, k)) && !KeepsSupport(rules, before, after, k)
  {
    stale := X;
    if ArrivesFrom(before, after, k) {
      var i: nat :| i < k && before[i] != after[i];
      var s: nat :| k <= s < |before| && Arrived(before, after, s) != iset{};
      var a :| a in Arrived(before, after, s);
      if Arrived(before, after, i) != iset{} {
        var l :| l in Arrived(before, after, i);
        rules := Pair(i, l, s, a);
        ArrivalsMeet(before, after, i, l, s, a, k);
      } else {
        ChangedSide(before, after, i);
        var b :| b in Gone(before, after, i);
        rules := Either(i, b, s, a);
        ArrivalReplaces(before, after, i, b, s, a, k);
      }
    } else {
      var j, l, i, b, s, a := UnsafeSprings(steps, before, Mixed(before, after, k));
      rules := Trap(j, l, i, b, s, a);
      SpringsEarlier(steps, before, after, k, j, l, i, b, s, a);
    }
    GroundedWithinLfp(rules, Mixed(before, after, k), AfterSides(rules, before, after, Lfp(rules, before), k));
  }

  lemma ChangedSide(before: Inputs, after: Inputs, i: nat)
    requires i < |before| == |after|
    ensures before[i] != after[i] <==> Gone(before, after, i) != iset{} || Arrived(before, after, i) != iset{}
  {
    if Gone(before, after, i) == iset{} && Arrived(before, after, i) == iset{} {
      forall x ensures x in before[i] <==> x in after[i] {
        assert x !in Gone(before, after, i) && x !in Arrived(before, after, i);
      }
    }
  }

  // -------------------------------------------------------------------- exactly when

  /** For every batch and every position between two passes: all rules that read only
      `steps` next to a member keep the support if and only if the batch is safe so far. */
  lemma SupportExact(steps: iset<nat>, before: Inputs, after: Inputs, k: nat)
    requires k <= |before| == |after|
    ensures SafeUpTo(steps, before, after, k) <==>
            forall rules | WellFormed(rules, |before|) && StepsWithin(rules, steps) ::
                     KeepsSupport(rules, before, after, k)
  {
    if SafeUpTo(steps, before, after, k) {
      forall rules | WellFormed(rules, |before|) && StepsWithin(rules, steps)
        ensures KeepsSupport(rules, before, after, k) {
        SupportHolds(rules, steps, before, after, k);
      }
    } else {
      var rules, stale := SupportBreaks(steps, before, after, k);
    }
  }

  /** When rows only depart, the support is there between any two passes. */
  lemma DeparturesKeepSupport(rules: seq<Rule>, before: Inputs, after: Inputs, k: nat)
    requires k <= |before| == |after| && Below(after, before)
    ensures KeepsSupport(rules, before, after, k)
  {
    MixedChanges(before, after, k);
    assert forall s: nat | s < |before| :: Arrived(before, after, s) == iset{};
    SupportHolds(rules, StepSides(rules), before, after, k);
  }

  /** When rows only arrive, it is there for all rules exactly while the arrivals are
      all before the position, or all from it on. */
  lemma ArrivalsKeepSupport(steps: iset<nat>, before: Inputs, after: Inputs, k: nat)
    requires k <= |before| == |after| && Below(before, after)
    ensures !(ArrivesFrom(before, after, k) && exists i: nat :: i < k && Arrived(before, after, i) != iset{}) <==>
            forall rules | WellFormed(rules, |before|) && StepsWithin(rules, steps) ::
                     KeepsSupport(rules, before, after, k)
  {
    MixedChanges(before, after, k);
    assert forall s: nat | s < |before| :: Gone(before, after, s) == iset{};
    forall i: nat | i < k ensures before[i] != after[i] <==> Arrived(before, after, i) != iset{} {
      ChangedSide(before, after, i);
    }
    SupportExact(steps, before, after, k);
  }
}

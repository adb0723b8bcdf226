/** When delete-and-rederive, one side at a time, leaves the least fixpoint of
    the new inputs, and when it cannot. */
module Rederive {
  import opened Rows
  import opened Datalog

  /** Sides below `k` as they are now; the others only as far as they already were. */
  ghost function Processed(before: Inputs, after: Inputs, k: nat): Inputs
    requires |before| == |after|
  {
    seq(|before|, i requires 0 <= i < |before| => if i < k then after[i] else before[i] * after[i])
  }

  /** Old rows, without those that departed from a side below `k`. */
  ghost function Surviving(before: Inputs, after: Inputs, k: nat): Inputs
    requires |before| == |after|
  {
    seq(|before|, i requires 0 <= i < |before| => if i < k then before[i] * after[i] else before[i])
  }

  /** Every rule with a member occurrence reads only sides in `steps`. */
  ghost predicate StepsWithin(rules: seq<Rule>, steps: iset<nat>) {
    forall r, side: nat | 0 <= r < |rules| && HasMember(rules[r]) && Mentions(rules[r], side) :: side in steps
  }

  ghost predicate IsStepSide(rules: seq<Rule>, side: nat) {
    exists r :: 0 <= r < |rules| && HasMember(rules[r]) && Mentions(rules[r], side)
  }

  ghost function StepSides(rules: seq<Rule>): iset<nat> {
    iset side: nat | IsStepSide(rules, side)
  }

  /** What a caller can check before the drain: no row arrives on a side read
      next to a member, or the passes before a departing side neither delete
      nor derive from members. */
  ghost predicate SafeBatch(steps: iset<nat>, before: Inputs, after: Inputs)
    requires |before| == |after|
  {
    || NoStepArrivals(steps, before, after)
    || (forall j: nat | j < |before| && Gone(before, after, j) != iset{} :: QuietBefore(steps, before, after, j))
  }

  ghost predicate NoStepArrivals(steps: iset<nat>, before: Inputs, after: Inputs)
    requires |before| == |after|
  {
    forall s: nat | s < |before| && s in steps :: Arrived(before, after, s) == iset{}
  }

  /** Passes before side `j` delete nothing and derive nothing from a member. */
  ghost predicate QuietBefore(steps: iset<nat>, before: Inputs, after: Inputs, j: nat)
    requires j <= |before| == |after|
  {
    forall k: nat | k < j :: Gone(before, after, k) == iset{} && (k in steps ==> Arrived(before, after, k) == iset{})
  }

  // -------------------------------------------------------------- no-op sides

  lemma NothingDropped(rules: seq<Rule>, before: Inputs, after: Inputs, side: nat, m: iset<Row>)
    requires side < |before| == |after| && Gone(before, after, side) == iset{}
    ensures Dropped(rules, before, after, side, m) == iset{}
  {
    assert DroppedSeed(rules, before, after, side, m) == iset{};
    ReachLeast(rules, before, DroppedSeed(rules, before, after, side, m), m, iset{});
  }

  /** A side with no change is a side without effect, as the drain assumes when
      it skips untouched inputs. */
  lemma UnchangedSide(rules: seq<Rule>, before: Inputs, after: Inputs, side: nat, m: iset<Row>)
    requires side < |before| == |after| && before[side] == after[side]
    ensures AfterSide(rules, before, after, side, m) == m
  {
    NothingDropped(rules, before, after, side, m);
    assert m - iset{} == m;
    assert FreshSeed(rules, before, after, side, m, iset{}) == iset{};
    ReachLeast(rules, after, FreshSeed(rules, before, after, side, m, iset{}), Outside(m), iset{});
  }

  lemma LastPass(rules: seq<Rule>, before: Inputs, after: Inputs, m: iset<Row>, k: nat, last: iset<Row>)
    requires 0 < k <= |before| == |after| && last == AfterSides(rules, before, after, m, k - 1)
    ensures AfterSides(rules, before, after, m, k) == AfterSide(rules, before, after, k - 1, last)
  {
  }

  // ------------------------------------------------------------- completeness

  lemma ClosedAfterSide(rules: seq<Rule>, before: Inputs, after: Inputs, k: nat, m: iset<Row>)
    requires k < |before| == |after|
    requires Closed(rules, Processed(before, after, k), m)
    ensures Closed(rules, Processed(before, after, k + 1), AfterSide(rules, before, after, k, m))
  {
    var dropped := Dropped(rules, before, after, k, m);
    var kept := m - dropped;
    var seed := FreshSeed(rules, before, after, k, kept, dropped);
    var stored := Reach(rules, after, seed, Outside(kept));
    var next := Processed(before, after, k + 1);
    ReachStart(rules, after, seed, Outside(kept));
    forall x | Concludes(rules, next, kept + stored, x) ensures x in kept + stored {
      if !Base(rules, next, x) {
        var p :| p in kept + stored && Edge(rules, next, p, x);
        EdgeMonotone(rules, next, after, p, x);
        if p in stored && x !in kept {
          ReachStep(rules, after, seed, Outside(kept), p, x);
        }
      }
      if Concludes(rules, next, kept, x) {
        ConclusionStored(rules, before, after, k, m, kept, dropped, x);
      }
    }
  }

  /** A conclusion from kept members is kept, restored, or derived from an arrival. */
  lemma ConclusionStored(rules: seq<Rule>, before: Inputs, after: Inputs, k: nat, m: iset<Row>, kept: iset<Row>,
                         dropped: iset<Row>, x: Row)
    requires k < |before| == |after| && kept == m - dropped
    requires Closed(rules, Processed(before, after, k), m)
    requires Concludes(rules, Processed(before, after, k + 1), kept, x)
    ensures x in kept || x in FreshSeed(rules, before, after, k, kept, dropped)
  {
    var g, next, arrived := Processed(before, after, k), Processed(before, after, k + 1), Arrived(before, after, k);
    ConcludesMonotone(rules, next, after, kept, kept, x);
    assert ConcludesVia(rules, next, kept, k, arrived, x) || Concludes(rules, g, kept, x) by {
      if Base(rules, next, x) {
        BaseSplit(rules, next, g, k, arrived, x);
      } else {
        var p :| p in kept && Edge(rules, next, p, x);
        EdgeSplit(rules, next, g, k, arrived, p, x);
      }
    }
    if ConcludesVia(rules, next, kept, k, arrived, x) {
      ViaMonotone(rules, next, after, kept, k, arrived, x);
    } else {
      ConcludesMonotone(rules, g, g, kept, m, x);
    }
  }

  lemma {:induction false} ClosedAfterSides(rules: seq<Rule>, before: Inputs, after: Inputs, k: nat)
    requires k <= |before| == |after|
    ensures Closed(rules, Processed(before, after, k), AfterSides(rules, before, after, Lfp(rules, before), k))
  {
    var m := Lfp(rules, before);
    if k == 0 {
      LfpClosed(rules, before);
      forall x | Concludes(rules, Processed(before, after, 0), m, x) ensures x in m {
        ConcludesMonotone(rules, Processed(before, after, 0), before, m, m, x);
      }
    } else {
      ClosedAfterSides(rules, before, after, k - 1);
      ClosedAfterSide(rules, before, after, k - 1, AfterSides(rules, before, after, m, k - 1));
    }
  }

  /** No batch, however mixed, makes the drain lose a member of the new fixpoint. */
  lemma DrainLosesNothing(rules: seq<Rule>, before: Inputs, after: Inputs)
    requires |before| == |after|
    ensures Lfp(rules, after) <= AfterSides(rules, before, after, Lfp(rules, before), |before|)
  {
    ClosedAfterSides(rules, before, after, |before|);
    assert Processed(before, after, |before|) == after;
    LfpLeast(rules, after, AfterSides(rules, before, after, Lfp(rules, before), |before|));
  }

  // ---------------------------------------------------------------- soundness

  /** Members with a support inside `m` over `g` that ends in a member-free rule
      over `g` or in a row of the new fixpoint. */
  ghost function Grounded(rules: seq<Rule>, sure: iset<Row>, g: Inputs, m: iset<Row>): iset<Row> {
    Reach(rules, g, m * (sure + Bases(rules, g)), m)
  }

  ghost predicate Supported(rules: seq<Rule>, sure: iset<Row>, g: Inputs, m: iset<Row>) {
    m <= Grounded(rules, sure, g, m)
  }

  /** Support over inputs that all exist now is membership in the new fixpoint. */
  lemma SupportedIsSure(rules: seq<Rule>, g: Inputs, after: Inputs, m: iset<Row>)
    requires Below(g, after) && Supported(rules, Lfp(rules, after), g, m)
    ensures m <= Lfp(rules, after)
  {
    var sure := Lfp(rules, after);
    LfpClosed(rules, after);
    forall x | x in Bases(rules, g) ensures x in sure {
      BaseMonotone(rules, g, after, x);
      assert Concludes(rules, after, sure, x);
    }
    forall p, x | p in sure && Edge(rules, g, p, x) ensures x in sure {
      EdgeMonotone(rules, g, after, p, x);
      assert Concludes(rules, after, sure, x);
    }
    ReachLeast(rules, g, m * (sure + Bases(rules, g)), m, sure);
  }

  /** The delete pass only leaves members whose support it did not touch. */
  lemma {:induction false} KeptStaysGrounded(rules: seq<Rule>, sure: iset<Row>, before: Inputs, after: Inputs, k: nat,
                                             m: iset<Row>,
                                             dropped: iset<Row>, n: nat, x: Row)
    requires k < |before| == |after| && dropped == Dropped(rules, before, after, k, m)
    requires Path(rules, Surviving(before, after, k), m * (sure + Bases(rules, Surviving(before, after, k))), m, n, x)
    requires x !in dropped
    ensures x in Grounded(rules, sure, Surviving(before, after, k + 1), m - dropped)
  {
    var g, g', gone := Surviving(before, after, k), Surviving(before, after, k + 1), Gone(before, after, k);
    var kept := m - dropped;
    var start' := kept * (sure + Bases(rules, g'));
    ReachStart(rules, g', start', kept);
    if n == 0 {
      if x !in sure {
        BaseSplit(rules, g, g', k, gone, x);
        if BaseVia(rules, g, k, gone, x) {
          DropsVia(rules, before, after, k, m, g, x);
        }
      }
    } else {
      var p :| Path(rules, g, m * (sure + Bases(rules, g)), m, n - 1, p) && Edge(rules, g, p, x);
      PathInside(rules, g, m * (sure + Bases(rules, g)), m, m, n - 1, p);
      if p in dropped {
        EdgeMonotone(rules, g, before, p, x);
        ReachStep(rules, before, DroppedSeed(rules, before, after, k, m), m, p, x);
      }
      EdgeSplit(rules, g, g', k, gone, p, x);
      if EdgeVia(rules, g, k, gone, p, x) {
        DropsVia(rules, before, after, k, m, g, x);
      }
      KeptStaysGrounded(rules, sure, before, after, k, m, dropped, n - 1, p);
      ReachStep(rules, g', start', kept, p, x);
    }
  }

  lemma DropsVia(rules: seq<Rule>, before: Inputs, after: Inputs, k: nat, m: iset<Row>, g: Inputs, x: Row)
    requires k < |before| == |after| && x in m && Below(g, before)
    requires ConcludesVia(rules, g, m, k, Gone(before, after, k), x)
    ensures x in Dropped(rules, before, after, k, m)
  {
    ViaMonotone(rules, g, before, m, k, Gone(before, after, k), x);
    ReachStart(rules, before, DroppedSeed(rules, before, after, k, m), m);
  }

  lemma KeptSupported(rules: seq<Rule>, sure: iset<Row>, before: Inputs, after: Inputs, k: nat, m: iset<Row>)
    requires k < |before| == |after|
    requires Supported(rules, sure, Surviving(before, after, k), m)
    ensures Supported(rules, sure, Surviving(before, after, k + 1), m - Dropped(rules, before, after, k, m))
  {
    var g, dropped := Surviving(before, after, k), Dropped(rules, before, after, k, m);
    forall x | x in m - dropped ensures x in Grounded(rules, sure, Surviving(before, after, k + 1), m - dropped) {
      assert x in Grounded(rules, sure, g, m);
      var n: nat :| Path(rules, g, m * (sure + Bases(rules, g)), m, n, x);
      KeptStaysGrounded(rules, sure, before, after, k, m, dropped, n, x);
    }
  }

  lemma GroundedMonotone(rules: seq<Rule>, sure: iset<Row>, g: Inputs, m: iset<Row>, m': iset<Row>)
    requires m <= m'
    ensures Grounded(rules, sure, g, m) <= Grounded(rules, sure, g, m')
  {
    var start, start' := m * (sure + Bases(rules, g)), m' * (sure + Bases(rules, g));
    forall x | x in Grounded(rules, sure, g, m) ensures x in Grounded(rules, sure, g, m') {
      var n: nat :| Path(rules, g, start, m, n, x);
      PathMonotone(rules, g, g, start, start', m, m', n, x);
    }
  }

  /** Adding rows that are sure keeps support. */
  lemma SupportedWithSure(rules: seq<Rule>, sure: iset<Row>, g: Inputs, kept: iset<Row>, stored: iset<Row>)
    requires Supported(rules, sure, g, kept) && stored <= sure
    ensures Supported(rules, sure, g, kept + stored)
  {
    var m := kept + stored;
    GroundedMonotone(rules, sure, g, kept, m);
    ReachStart(rules, g, m * (sure + Bases(rules, g)), m);
  }

  /** Without arrivals on step sides, a step over the new inputs is a step over
      surviving old rows. */
  lemma StepSurvives(rules: seq<Rule>, steps: iset<nat>, before: Inputs, after: Inputs, k: nat, p: Row, x: Row)
    requires |before| == |after| && StepsWithin(rules, steps) && NoStepArrivals(steps, before, after)
    requires Edge(rules, after, p, x)
    ensures Edge(rules, Surviving(before, after, k), p, x)
  {
    var g := Surviving(before, after, k);
    var r, t :| 0 <= r < |rules| && HasMember(rules[r]) && Fires(rules[r], t, after) && Reads(rules[r], t, p)
                && rules[r].head(t) == x;
    forall i | 0 <= i < |t| && rules[r].occurrences[i].Input? ensures t[i] in g[rules[r].occurrences[i].side] {
      var s := rules[r].occurrences[i].side;
      assert Mentions(rules[r], s);
      assert t[i] !in Arrived(before, after, s);
    }
    assert Fires(rules[r], t, g);
  }

  /** Restored and derived rows then keep support too. */
  lemma SupportedWithFresh(rules: seq<Rule>, steps: iset<nat>, before: Inputs, after: Inputs, k: nat, kept: iset<Row>,
                           seed: iset<Row>)
    requires |before| == |after| && StepsWithin(rules, steps) && NoStepArrivals(steps, before, after)
    requires Supported(rules, Lfp(rules, after), Surviving(before, after, k), kept)
    requires forall x | x in seed :: Concludes(rules, after, kept, x)
    ensures Supported(rules, Lfp(rules, after), Surviving(before, after, k),
                      kept + Reach(rules, after, seed, Outside(kept)))
  {
    var sure, g := Lfp(rules, after), Surviving(before, after, k);
    var stored := Reach(rules, after, seed, Outside(kept));
    var m := kept + stored;
    var start := m * (sure + Bases(rules, g));
    ReachStart(rules, after, seed, Outside(kept));
    ReachStart(rules, g, start, m);
    GroundedMonotone(rules, sure, g, kept, m);
    LfpClosed(rules, after);
    var good := stored * Grounded(rules, sure, g, m);
    forall x | x in seed ensures x in good {
      if Base(rules, after, x) {
        assert Concludes(rules, after, sure, x);
      } else {
        var p :| p in kept && Edge(rules, after, p, x);
        StepSurvives(rules, steps, before, after, k, p, x);
        ReachStep(rules, g, start, m, p, x);
      }
    }
    forall p, x | p in good && Edge(rules, after, p, x) && x in Outside(kept) ensures x in good {
      ReachStep(rules, after, seed, Outside(kept), p, x);
      StepSurvives(rules, steps, before, after, k, p, x);
      ReachStep(rules, g, start, m, p, x);
    }
    ReachLeast(rules, after, seed, Outside(kept), good);
  }

  lemma SupportedAfterSide(rules: seq<Rule>, steps: iset<nat>, before: Inputs, after: Inputs, k: nat, m: iset<Row>)
    requires k < |before| == |after| && StepsWithin(rules, steps) && NoStepArrivals(steps, before, after)
    requires Supported(rules, Lfp(rules, after), Surviving(before, after, k), m)
    ensures Supported(rules, Lfp(rules, after), Surviving(before, after, k + 1), AfterSide(rules, before, after, k, m))
  {
    var dropped := Dropped(rules, before, after, k, m);
    var kept := m - dropped;
    var seed := FreshSeed(rules, before, after, k, kept, dropped);
    KeptSupported(rules, Lfp(rules, after), before, after, k, m);
    forall x | x in seed ensures Concludes(rules, after, kept, x) {
      if ConcludesVia(rules, after, kept, k, Arrived(before, after, k), x) {
        ViaConcludes(rules, after, kept, k, Arrived(before, after, k), x);
      }
    }
    SupportedWithFresh(rules, steps, before, after, k + 1, kept, seed);
  }

  /** Rows stored by a pass whose seeds are in the new fixpoint are in it. */
  lemma FreshIsSure(rules: seq<Rule>, before: Inputs, after: Inputs, k: nat, kept: iset<Row>, dropped: iset<Row>)
    requires k < |before| == |after|
    requires FreshSeed(rules, before, after, k, kept, dropped) <= Lfp(rules, after)
    ensures Fresh(rules, before, after, k, kept, dropped) <= Lfp(rules, after)
  {
    var sure := Lfp(rules, after);
    LfpClosed(rules, after);
    forall p, x | p in sure && Edge(rules, after, p, x) ensures x in sure {
      assert Concludes(rules, after, sure, x);
    }
    ReachLeast(rules, after, FreshSeed(rules, before, after, k, kept, dropped), Outside(kept), sure);
  }

  /** A set that is closed under the rules over the new inputs bounds every pass. */
  lemma {:induction false} AfterSidesWithin(rules: seq<Rule>, before: Inputs, after: Inputs, m: iset<Row>, k: nat,
                                            s: iset<Row>)
    requires k <= |before| == |after| && m <= s && Closed(rules, after, s)
    ensures AfterSides(rules, before, after, m, k) <= s
  {
    if k > 0 {
      AfterSidesWithin(rules, before, after, m, k - 1, s);
      var last := AfterSides(rules, before, after, m, k - 1);
      var dropped := Dropped(rules, before, after, k - 1, last);
      var kept := last - dropped;
      var seed := FreshSeed(rules, before, after, k - 1, kept, dropped);
      forall x | x in seed ensures x in s {
        if !Concludes(rules, after, kept, x) {
          ViaConcludes(rules, after, kept, k - 1, Arrived(before, after, k - 1), x);
        }
        ConcludesMonotone(rules, after, after, kept, s, x);
      }
      forall p, x | p in s && Edge(rules, after, p, x) ensures x in s {
        assert Concludes(rules, after, s, x);
      }
      ReachLeast(rules, after, seed, Outside(kept), s);
    }
  }

  /** A pass that keeps only members of the new fixpoint stores only such members. */
  lemma SureAfterSide(rules: seq<Rule>, before: Inputs, after: Inputs, k: nat, m: iset<Row>)
    requires k < |before| == |after|
    requires m - Dropped(rules, before, after, k, m) <= Lfp(rules, after)
    ensures AfterSide(rules, before, after, k, m) <= Lfp(rules, after)
  {
    var sure, dropped := Lfp(rules, after), Dropped(rules, before, after, k, m);
    var kept := m - dropped;
    LfpClosed(rules, after);
    forall x | x in FreshSeed(rules, before, after, k, kept, dropped) ensures x in sure {
      if !Concludes(rules, after, kept, x) {
        ViaConcludes(rules, after, kept, k, Arrived(before, after, k), x);
      }
      ConcludesMonotone(rules, after, after, kept, sure, x);
    }
    FreshIsSure(rules, before, after, k, kept, dropped);
  }

  // ----------------------------------------------------------------- theorems

  lemma LfpSupported(rules: seq<Rule>, sure: iset<Row>, ins: Inputs)
    ensures Supported(rules, sure, ins, Lfp(rules, ins))
  {
    var m := Lfp(rules, ins);
    var good := m * Grounded(rules, sure, ins, m);
    ReachStart(rules, ins, Bases(rules, ins), Outside(iset{}));
    ReachStart(rules, ins, m * (sure + Bases(rules, ins)), m);
    forall p, x | p in good && Edge(rules, ins, p, x) ensures x in good {
      ReachStep(rules, ins, Bases(rules, ins), Outside(iset{}), p, x);
      ReachStep(rules, ins, m * (sure + Bases(rules, ins)), m, p, x);
    }
    ReachLeast(rules, ins, Bases(rules, ins), Outside(iset{}), good);
  }

  /** With no arrival on a step side, every member keeps, after each pass, a
      support over old rows that survive the sides passed so far. */
  lemma {:induction false} SupportedAfterSides(rules: seq<Rule>, steps: iset<nat>, before: Inputs, after: Inputs,
                                               k: nat)
    requires k <= |before| == |after| && StepsWithin(rules, steps) && NoStepArrivals(steps, before, after)
    ensures Supported(rules, Lfp(rules, after), Surviving(before, after, k),
                      AfterSides(rules, before, after, Lfp(rules, before), k))
  {
    if k == 0 {
      assert Surviving(before, after, 0) == before;
      LfpSupported(rules, Lfp(rules, after), before);
    } else {
      SupportedAfterSides(rules, steps, before, after, k - 1);
      SupportedAfterSide(rules, steps, before, after, k - 1,
                         AfterSides(rules, before, after, Lfp(rules, before), k - 1));
    }
  }

  /** Before the departing side `j`, passes only add rows of the new fixpoint. */
  lemma {:induction false} SupportedUpTo(rules: seq<Rule>, steps: iset<nat>, before: Inputs, after: Inputs, j: nat,
                                         k: nat)
    requires k <= j <= |before| == |after| && StepsWithin(rules, steps) && QuietBefore(steps, before, after, j)
    ensures Supported(rules, Lfp(rules, after), Surviving(before, after, k),
                      AfterSides(rules, before, after, Lfp(rules, before), k))
  {
    var sure := Lfp(rules, after);
    if k == 0 {
      assert Surviving(before, after, 0) == before;
      LfpSupported(rules, sure, before);
    } else {
      SupportedUpTo(rules, steps, before, after, j, k - 1);
      var m := AfterSides(rules, before, after, Lfp(rules, before), k - 1);
      KeptSupported(rules, sure, before, after, k - 1, m);
      NothingDropped(rules, before, after, k - 1, m);
      assert m - iset{} == m;
      QuietSeedIsSure(rules, steps, before, after, k - 1, m);
      FreshIsSure(rules, before, after, k - 1, m, iset{});
      SupportedWithSure(rules, sure, Surviving(before, after, k), m, Fresh(rules, before, after, k - 1, m, iset{}));
    }
  }

  /** Rows arriving on a side no step reads derive members by themselves. */
  lemma QuietSeedIsSure(rules: seq<Rule>, steps: iset<nat>, before: Inputs, after: Inputs, k: nat, m: iset<Row>)
    requires k < |before| == |after| && StepsWithin(rules, steps)
    requires k in steps ==> Arrived(before, after, k) == iset{}
    ensures FreshSeed(rules, before, after, k, m, iset{}) <= Lfp(rules, after)
  {
    var sure := Lfp(rules, after);
    LfpClosed(rules, after);
    forall x | ConcludesVia(rules, after, m, k, Arrived(before, after, k), x) ensures x in sure {
      if p :| p in m && EdgeVia(rules, after, k, Arrived(before, after, k), p, x) {
        StepReadsDelta(rules, steps, after, k, Arrived(before, after, k), p, x);
        assert false;
      } else {
        assert Base(rules, after, x);
        assert Concludes(rules, after, sure, x);
      }
    }
  }

  lemma StepReadsDelta(rules: seq<Rule>, steps: iset<nat>, ins: Inputs, side: nat, delta: iset<Row>, p: Row, x: Row)
    requires StepsWithin(rules, steps) && EdgeVia(rules, ins, side, delta, p, x)
    ensures side in steps && delta != iset{}
  {
    var r, t :| 0 <= r < |rules| && HasMember(rules[r]) && Fires(rules[r], t, ins) && Reads(rules[r], t, p)
                && Uses(rules[r], t, side, delta) && rules[r].head(t) == x;
    assert Mentions(rules[r], side);
  }

  /** From a side after which nothing departs, members are in the new fixpoint. */
  lemma {:induction false} SureFrom(rules: seq<Rule>, before: Inputs, after: Inputs, j: nat, k: nat, m: iset<Row>)
    requires j < k <= |before| == |after|
    requires forall i: nat | j < i < |before| :: Gone(before, after, i) == iset{}
    requires m == AfterSides(rules, before, after, Lfp(rules, before), j)
    requires m - Dropped(rules, before, after, j, m) <= Lfp(rules, after)
    ensures AfterSides(rules, before, after, Lfp(rules, before), k) <= Lfp(rules, after)
  {
    var last := AfterSides(rules, before, after, Lfp(rules, before), k - 1);
    LastPass(rules, before, after, Lfp(rules, before), k, last);
    if k > j + 1 {
      SureFrom(rules, before, after, j, k - 1, m);
      SureQuietSide(rules, before, after, k - 1, last);
    } else {
      SureAfterSide(rules, before, after, j, m);
    }
  }

  lemma SureQuietSide(rules: seq<Rule>, before: Inputs, after: Inputs, k: nat, m: iset<Row>)
    requires k < |before| == |after| && Gone(before, after, k) == iset{} && m <= Lfp(rules, after)
    ensures AfterSide(rules, before, after, k, m) <= Lfp(rules, after)
  {
    NothingDropped(rules, before, after, k, m);
    SureAfterSide(rules, before, after, k, m);
  }

  lemma DrainSoundWithoutStepArrivals(rules: seq<Rule>, steps: iset<nat>, before: Inputs, after: Inputs)
    requires |before| == |after| && StepsWithin(rules, steps) && NoStepArrivals(steps, before, after)
    ensures AfterSides(rules, before, after, Lfp(rules, before), |before|) <= Lfp(rules, after)
  {
    SupportedAfterSides(rules, steps, before, after, |before|);
    SupportedIsSure(rules, Surviving(before, after, |before|), after,
                    AfterSides(rules, before, after, Lfp(rules, before), |before|));
  }

  /** At the only departing side, what the delete pass keeps is in the new fixpoint. */
  lemma SureAtDeparture(rules: seq<Rule>, before: Inputs, after: Inputs, j: nat, m: iset<Row>)
    requires j < |before| == |after|
    requires Supported(rules, Lfp(rules, after), Surviving(before, after, j), m)
    requires forall i: nat | i < |before| && i != j :: Gone(before, after, i) == iset{}
    ensures m - Dropped(rules, before, after, j, m) <= Lfp(rules, after)
  {
    var g := Surviving(before, after, j + 1);
    KeptSupported(rules, Lfp(rules, after), before, after, j, m);
    forall s: nat, x | s < |before| && x in g[s] ensures x in after[s] {
      assert s == j || x !in Gone(before, after, s);
    }
    SupportedIsSure(rules, g, after, m - Dropped(rules, before, after, j, m));
  }

  lemma DrainSoundAtDeparture(rules: seq<Rule>, steps: iset<nat>, before: Inputs, after: Inputs, j: nat)
    requires j < |before| == |after| && StepsWithin(rules, steps)
    requires QuietBefore(steps, before, after, j)
    requires forall i: nat | j < i < |before| :: Gone(before, after, i) == iset{}
    ensures AfterSides(rules, before, after, Lfp(rules, before), |before|) <= Lfp(rules, after)
  {
    SupportedUpTo(rules, steps, before, after, j, j);
    SureAtDeparture(rules, before, after, j, AfterSides(rules, before, after, Lfp(rules, before), j));
    SureFrom(rules, before, after, j, |before|, AfterSides(rules, before, after, Lfp(rules, before), j));
  }

  /** A safe batch leaves exactly the least fixpoint of the new inputs. */
  lemma DrainExact(rules: seq<Rule>, steps: iset<nat>, before: Inputs, after: Inputs)
    requires |before| == |after| && StepsWithin(rules, steps) && SafeBatch(steps, before, after)
    ensures AfterSides(rules, before, after, Lfp(rules, before), |before|) == Lfp(rules, after)
  {
    DrainLosesNothing(rules, before, after);
    if NoStepArrivals(steps, before, after) {
      DrainSoundWithoutStepArrivals(rules, steps, before, after);
    } else if j: nat :| j < |before| && Gone(before, after, j) != iset{} {
      assert QuietBefore(steps, before, after, j);
      DrainSoundAtDeparture(rules, steps, before, after, j);
    } else if |before| > 0 {
      DrainSoundAtDeparture(rules, steps, before, after, 0);
    }
  }

  // ------------------------------------------------- a batch that is not safe fails

  /** `concl` follows from any of the input rows `rows` alone. */
  function Pick(side: nat, rows: set<Row>, concl: Row): Rule {
    Rule([Input(side)], t => |t| == 1 && t[0] in rows, t => concl)
  }

  /** `concl` follows from the input row `row` and the member `from`. */
  function Link(side: nat, row: Row, from: Row, concl: Row): Rule {
    Rule([Input(side), Member], t => |t| == 2 && t[0] == row && t[1] == from, t => concl)
  }

  const X: Row := [Integer(0)]
  const Y: Row := [Integer(1)]

  /** `Y` while `l` is on side `j`; `X` while a row of `b` is on side `k`, or through `Y`
      while `a` is on side `s`. */
  function Trap(j: nat, l: Row, k: nat, b: set<Row>, s: nat, a: Row): seq<Rule> {
    [Pick(j, {l}, Y), Pick(k, b, X), Link(s, a, Y, X)]
  }

  lemma TrapShape(j: nat, l: Row, k: nat, b: set<Row>, s: nat, a: Row, sides: nat)
    requires j < sides && k < sides && s < sides
    ensures WellFormed(Trap(j, l, k, b, s, a), sides)
    ensures StepsWithin(Trap(j, l, k, b, s, a), iset{s})
  {
    var rules := Trap(j, l, k, b, s, a);
    assert !HasMember(rules[0]) && !HasMember(rules[1]);
    assert rules[2].occurrences == [Input(s), Member];
  }

  /** What the trap's rules conclude, read off their definitions. */
  lemma TrapBase(j: nat, l: Row, k: nat, b: set<Row>, s: nat, a: Row, ins: Inputs, x: Row)
    requires j < |ins| && k < |ins|
    ensures Base(Trap(j, l, k, b, s, a), ins, x) <==>
              (x == Y && l in ins[j]) || (x == X && exists c :: c in b && c in ins[k])
  {
    var rules := Trap(j, l, k, b, s, a);
    assert rules[0].occurrences == [Input(j)] && rules[1].occurrences == [Input(k)];
    assert rules[2].occurrences == [Input(s), Member] && Member in rules[2].occurrences;
    if x == Y && l in ins[j] {
      assert Fires(rules[0], [l], ins) && rules[0].head([l]) == Y;
    }
    if c :| x == X && c in b && c in ins[k] {
      assert Fires(rules[1], [c], ins) && rules[1].head([c]) == X;
    }
    if Base(rules, ins, x) {
      var r, t :| 0 <= r < |rules| && !HasMember(rules[r]) && Fires(rules[r], t, ins) && rules[r].head(t) == x;
      assert r != 2;
      assert rules[r].occurrences[0].Input?;
    }
  }

  lemma TrapBaseVia(j: nat, l: Row, k: nat, b: set<Row>, s: nat, a: Row, ins: Inputs, side: nat, delta: iset<Row>,
                    x: Row)
    requires j < |ins| && k < |ins| && BaseVia(Trap(j, l, k, b, s, a), ins, side, delta, x)
    ensures (x == Y && side == j) || (x == X && side == k)
  {
    var rules := Trap(j, l, k, b, s, a);
    assert rules[0].occurrences == [Input(j)] && rules[1].occurrences == [Input(k)];
    assert rules[2].occurrences == [Input(s), Member] && Member in rules[2].occurrences;
    var r, t :| 0 <= r < |rules| && !HasMember(rules[r]) && Fires(rules[r], t, ins) && Uses(rules[r], t, side, delta)
                && rules[r].head(t) == x;
    assert r != 2;
  }

  lemma TrapEdge(j: nat, l: Row, k: nat, b: set<Row>, s: nat, a: Row, ins: Inputs, p: Row, x: Row)
    requires s < |ins|
    ensures Edge(Trap(j, l, k, b, s, a), ins, p, x) <==> p == Y && x == X && a in ins[s]
  {
    var rules := Trap(j, l, k, b, s, a);
    assert rules[0].occurrences == [Input(j)] && rules[1].occurrences == [Input(k)];
    assert rules[2].occurrences == [Input(s), Member] && Member in rules[2].occurrences;
    if p == Y && x == X && a in ins[s] {
      assert Fires(rules[2], [a, Y], ins) && Reads(rules[2], [a, Y], Y) && rules[2].head([a, Y]) == X;
    }
    if Edge(rules, ins, p, x) {
      var r, t :| 0 <= r < |rules| && HasMember(rules[r]) && Fires(rules[r], t, ins) && Reads(rules[r], t, p)
                  && rules[r].head(t) == x;
      assert r == 2;
      assert rules[r].occurrences[0].Input? && rules[r].occurrences[1] == Member;
    }
  }

  lemma {:induction false} ReachEntry(rules: seq<Rule>, ins: Inputs, start: iset<Row>, within: iset<Row>, x: Row)
    requires x in Reach(rules, ins, start, within)
    ensures x in start || exists p :: Edge(rules, ins, p, x)
  {
    var n: nat :| Path(rules, ins, start, within, n, x);
    if n > 0 {
      var p :| Path(rules, ins, start, within, n - 1, p) && Edge(rules, ins, p, x);
    }
  }

  /** A member no old derivation through the side concludes survives the side. */
  lemma TrapSurvives(j: nat, l: Row, k: nat, b: set<Row>, s: nat, a: Row, before: Inputs, after: Inputs, i: nat,
                     m: iset<Row>, x: Row)
    requires i < |before| == |after| && j < |before| && k < |before| && s < |before| && a !in before[s]
    requires x in m && ((x == Y && i != j) || (x == X && i != k))
    ensures x !in Dropped(Trap(j, l, k, b, s, a), before, after, i, m)
    ensures x in AfterSide(Trap(j, l, k, b, s, a), before, after, i, m)
  {
    var rules := Trap(j, l, k, b, s, a);
    if x in Dropped(rules, before, after, i, m) {
      ReachEntry(rules, before, DroppedSeed(rules, before, after, i, m), m, x);
      if p :| Edge(rules, before, p, x) {
        TrapEdge(j, l, k, b, s, a, before, p, x);
        assert false;
      } else if BaseVia(rules, before, i, Gone(before, after, i), x) {
        TrapBaseVia(j, l, k, b, s, a, before, i, Gone(before, after, i), x);
        assert false;
      } else {
        var p :| p in m && EdgeVia(rules, before, i, Gone(before, after, i), p, x);
        assert Edge(rules, before, p, x);
      }
    }
  }

  lemma TrapEmpty(j: nat, l: Row, k: nat, b: set<Row>, s: nat, a: Row, ins: Inputs)
    requires j < |ins| && k < |ins| && l !in ins[j] && forall c | c in b :: c !in ins[k]
    ensures Lfp(Trap(j, l, k, b, s, a), ins) == iset{}
  {
    var rules := Trap(j, l, k, b, s, a);
    forall x | x in Bases(rules, ins) ensures false {
      TrapBase(j, l, k, b, s, a, ins, x);
    }
    ReachLeast(rules, ins, Bases(rules, ins), Outside(iset{}), iset{});
  }

  lemma TrapHasY(j: nat, l: Row, k: nat, b: set<Row>, s: nat, a: Row, before: Inputs)
    requires j < |before| && k < |before| && l in before[j]
    ensures Y in Lfp(Trap(j, l, k, b, s, a), before)
  {
    var rules := Trap(j, l, k, b, s, a);
    TrapBase(j, l, k, b, s, a, before, Y);
    ReachStart(rules, before, Bases(rules, before), Outside(iset{}));
  }

  /** What every pass from side `lo` on keeps. */
  ghost predicate EachKeeps(rules: seq<Rule>, before: Inputs, after: Inputs, lo: nat, hi: nat, x: Row)
    requires hi <= |before| == |after|
  {
    forall i: nat, m | lo <= i < hi && x in m :: x in AfterSide(rules, before, after, i, m)
  }

  lemma {:induction false} StaysThrough(rules: seq<Rule>, before: Inputs, after: Inputs, m: iset<Row>, lo: nat, hi: nat,
                                        x: Row)
    requires lo <= hi <= |before| == |after| && EachKeeps(rules, before, after, lo, hi, x)
    requires x in AfterSides(rules, before, after, m, lo)
    ensures x in AfterSides(rules, before, after, m, hi)
  {
    if lo < hi {
      assert EachKeeps(rules, before, after, lo, hi - 1, x);
      StaysThrough(rules, before, after, m, lo, hi - 1, x);
    }
  }

  lemma TrapKeeps(j: nat, l: Row, k: nat, b: set<Row>, s: nat, a: Row, before: Inputs, after: Inputs, lo: nat, hi: nat,
                  x: Row)
    requires hi <= |before| == |after| && j < |before| && k < |before| && s < |before| && a !in before[s]
    requires (x == Y && hi <= j) || (x == X && (hi <= k || k < lo))
    ensures EachKeeps(Trap(j, l, k, b, s, a), before, after, lo, hi, x)
  {
    forall i: nat, m | lo <= i < hi && x in m ensures x in AfterSide(Trap(j, l, k, b, s, a), before, after, i, m) {
      TrapSurvives(j, l, k, b, s, a, before, after, i, m, x);
    }
  }

  /** `Y` is a member until its row departs. */
  lemma TrapKeepsY(j: nat, l: Row, k: nat, b: set<Row>, s: nat, a: Row, before: Inputs, after: Inputs, i: nat)
    requires i <= j < |before| == |after| && k < |before| && s < |before| && a !in before[s] && l in before[j]
    ensures Y in AfterSides(Trap(j, l, k, b, s, a), before, after, Lfp(Trap(j, l, k, b, s, a), before), i)
  {
    var rules := Trap(j, l, k, b, s, a);
    TrapHasY(j, l, k, b, s, a, before);
    TrapKeeps(j, l, k, b, s, a, before, after, 0, i, Y);
    StaysThrough(rules, before, after, Lfp(rules, before), 0, i, Y);
  }

  /** Once `X` is stored after side `k`, no later pass removes it. */
  lemma TrapKeepsX(j: nat, l: Row, k: nat, b: set<Row>, s: nat, a: Row, before: Inputs, after: Inputs, m: iset<Row>,
                   i: nat)
    requires k < i <= |before| == |after| && j < |before| && s < |before| && a !in before[s]
    requires X in AfterSides(Trap(j, l, k, b, s, a), before, after, m, k + 1)
    ensures X in AfterSides(Trap(j, l, k, b, s, a), before, after, m, i)
  {
    TrapKeeps(j, l, k, b, s, a, before, after, k + 1, i, X);
    StaysThrough(Trap(j, l, k, b, s, a), before, after, m, k + 1, i, X);
  }

  /** `X` before the pass for side `k`, when `b` was on it. */
  lemma TrapHasX(j: nat, l: Row, k: nat, b: set<Row>, s: nat, a: Row, before: Inputs, after: Inputs, i: nat)
    requires i <= k < |before| == |after| && j < |before| && s < |before| && a !in before[s]
    requires exists c :: c in b && c in before[k]
    ensures X in AfterSides(Trap(j, l, k, b, s, a), before, after, Lfp(Trap(j, l, k, b, s, a), before), i)
  {
    var rules := Trap(j, l, k, b, s, a);
    TrapBase(j, l, k, b, s, a, before, X);
    ReachStart(rules, before, Bases(rules, before), Outside(iset{}));
    TrapKeeps(j, l, k, b, s, a, before, after, 0, i, X);
    StaysThrough(rules, before, after, Lfp(rules, before), 0, i, X);
  }

  /** The pass for side `k` stores `X` through `Y`, which a later pass deletes:
      either because `b` departed and `X` is rederived, or because `a` arrived. */
  lemma TrapSprings(j: nat, l: Row, k: nat, b: set<Row>, s: nat, a: Row, before: Inputs, after: Inputs, n: nat)
    requires k < j < n <= |before| == |after| && s < |before|
    requires l in Gone(before, after, j) && a in Arrived(before, after, s)
    requires (b != {} && forall c | c in b :: c in Gone(before, after, k)) || (s == k && b == {})
    ensures X in AfterSides(Trap(j, l, k, b, s, a), before, after, Lfp(Trap(j, l, k, b, s, a), before), n)
  {
    var rules := Trap(j, l, k, b, s, a);
    var m := AfterSides(rules, before, after, Lfp(rules, before), k);
    var dropped := Dropped(rules, before, after, k, m);
    var kept := m - dropped;
    TrapKeepsY(j, l, k, b, s, a, before, after, k);
    TrapSurvives(j, l, k, b, s, a, before, after, k, m, Y);
    TrapEdge(j, l, k, b, s, a, after, Y, X);
    ReachStart(rules, after, FreshSeed(rules, before, after, k, kept, dropped), Outside(kept));
    if b != {} {
      var c :| c in b;
      TrapHasX(j, l, k, b, s, a, before, after, k);
      assert Concludes(rules, after, kept, X);
    } else {
      TrapArrival(j, l, k, b, a, before, after);
    }
    TrapKeepsX(j, l, k, b, s, a, before, after, Lfp(rules, before), n);
  }

  lemma TrapArrival(j: nat, l: Row, k: nat, b: set<Row>, a: Row, before: Inputs, after: Inputs)
    requires j < |before| == |after| && k < |before| && a in Arrived(before, after, k)
    ensures EdgeVia(Trap(j, l, k, b, k, a), after, k, Arrived(before, after, k), Y, X)
  {
    var rules, t := Trap(j, l, k, b, k, a), [a, Y];
    assert rules[2].occurrences == [Input(k), Member] && Member in rules[2].occurrences;
    assert Fires(rules[2], t, after) && Reads(rules[2], t, Y);
    assert rules[2].occurrences[0] == Input(k) && t[0] in Arrived(before, after, k);
    assert Uses(rules[2], t, k, Arrived(before, after, k));
    assert rules[2].head(t) == X;
  }

  /** What an unsafe batch has: a departing side `j` with, before it, an arrival on a
      step side or another departure next to such an arrival. */
  ghost predicate Springs(steps: iset<nat>, before: Inputs, after: Inputs, j: nat, l: Row, k: nat, b: set<Row>,
                          s: nat, a: Row) {
    && k < j < |before| == |after| && s < |before| && s in steps
    && l in Gone(before, after, j) && a in Arrived(before, after, s)
    && ((b != {} && forall c | c in b :: c in Gone(before, after, k)) || (s == k && b == {}))
  }

  lemma UnsafeSprings(steps: iset<nat>, before: Inputs, after: Inputs) returns (j: nat, l: Row, k: nat, b: set<Row>,
      s: nat, a: Row)
    requires |before| == |after| && !SafeBatch(steps, before, after)
    ensures Springs(steps, before, after, j, l, k, b, s, a)
  {
    j :| j < |before| && Gone(before, after, j) != iset{} && !QuietBefore(steps, before, after, j);
    l :| l in Gone(before, after, j);
    if i: nat :| i < j && i in steps && Arrived(before, after, i) != iset{} {
      k, s, b := i, i, {};
      a :| a in Arrived(before, after, i);
    } else {
      k :| k < j && Gone(before, after, k) != iset{};
      s :| s < |before| && s in steps && Arrived(before, after, s) != iset{};
      var c :| c in Gone(before, after, k);
      b := {c};
      a :| a in Arrived(before, after, s);
    }
  }

  /** The converse of `DrainExact`: for every batch that is not safe there are
      rules on which the drain keeps a row that no longer follows. */
  lemma UnsafeBatchFails(steps: iset<nat>, before: Inputs, after: Inputs) returns (rules: seq<Rule>, stale: Row)
    requires |before| == |after| && !SafeBatch(steps, before, after)
    ensures WellFormed(rules, |before|) && StepsWithin(rules, steps)
    ensures stale in AfterSides(rules, before, after, Lfp(rules, before), |before|) && stale !in Lfp(rules, after)
  {
    var j, l, k, b, s, a := UnsafeSprings(steps, before, after);
    rules, stale := Trap(j, l, k, b, s, a), X;
    TrapShape(j, l, k, b, s, a, |before|);
    TrapSprings(j, l, k, b, s, a, before, after, |before|);
    TrapEmpty(j, l, k, b, s, a, after);
  }

  /** The rules of every shape that reads only `steps` next to a member are drained
      exactly if and only if the batch is safe. */
  lemma DrainExactIff(steps: iset<nat>, before: Inputs, after: Inputs)
    requires |before| == |after|
    ensures SafeBatch(steps, before, after) <==>
            forall rules | WellFormed(rules, |before|) && StepsWithin(rules, steps) :: IsExact(rules, before, after)
  {
    if SafeBatch(steps, before, after) {
      forall rules | WellFormed(rules, |before|) && StepsWithin(rules, steps) ensures IsExact(rules, before, after) {
        DrainExact(rules, steps, before, after);
      }
    } else {
      var rules, stale := UnsafeBatchFails(steps, before, after);
      assert !IsExact(rules, before, after);
    }
  }

  /** The drain leaves the least fixpoint of the new inputs. */
  ghost predicate IsExact(rules: seq<Rule>, before: Inputs, after: Inputs)
    requires |before| == |after|
  {
    AfterSides(rules, before, after, Lfp(rules, before), |before|) == Lfp(rules, after)
  }

  lemma {:induction false} OnlySide(rules: seq<Rule>, before: Inputs, after: Inputs, side: nat, m: iset<Row>, k: nat)
    requires k <= |before| == |after| && side < |before|
    requires forall i | 0 <= i < |before| && i != side :: before[i] == after[i]
    ensures AfterSides(rules, before, after, m, k) == if k <= side then m else AfterSide(rules, before, after, side, m)
  {
    if k > 0 {
      OnlySide(rules, before, after, side, m, k - 1);
      if k - 1 != side {
        UnchangedSide(rules, before, after, k - 1, AfterSides(rules, before, after, m, k - 1));
      }
    }
  }

  /** One changed side, by any mix of departures and arrivals: one pass is exact. */
  lemma OneSideExact(rules: seq<Rule>, before: Inputs, after: Inputs, side: nat)
    requires side < |before| == |after|
    requires forall i | 0 <= i < |before| && i != side :: before[i] == after[i]
    ensures AfterSide(rules, before, after, side, Lfp(rules, before)) == Lfp(rules, after)
  {
    var steps := StepSides(rules);
    forall j: nat | j < |before| && Gone(before, after, j) != iset{} ensures QuietBefore(steps, before, after, j) {
      assert j == side;
    }
    DrainExact(rules, steps, before, after);
    OnlySide(rules, before, after, side, Lfp(rules, before), |before|);
  }
}

/** Maintenance of one recursive node: a delete-and-rederive pass per changed
    side, its statements in the order the drain issues them, over the node's
    member, work and deleted tables. */
module Fixpoint {
  import opened Rows
  import opened Bags
  import opened Datalog
  import opened Tables
  import opened Queries
  import opened Rederive
  import opened FixpointStatements

  class FixpointNode {
    const rules: seq<Rule>
    const sides: nat
    /** The membership key: cells folded by collation and numeric equality. */
    const key: Row -> Row

    var all: Table
    var work: Table
    var deleted: seq<Entry>
    var left: seq<Row>
    var arrived: seq<Row>
    var out: Bag

    constructor (rules: seq<Rule>, sides: nat, key: Row -> Row)
      requires RulesOk(rules, sides, key)
      ensures Valid() && this.rules == rules && this.sides == sides && this.key == key
      ensures all.entries == [] && out == []
    {
      this.rules, this.sides, this.key := rules, sides, key;
      all, work := Table([], 0), Table([], 0);
      deleted, left, arrived, out := [], [], [], [];
    }

    ghost predicate Valid()
      reads this
    {
      RulesOk(rules, sides, key) && Tables.Valid(all, key) && Tables.Valid(work, key)
    }

    ghost function Members(): iset<Row>
      reads this
    {
      Keys(all, key)
    }

    ghost function Meaning(): seq<Rule> {
      CanonAll(rules, key)
    }

    /** Member rules over the members in (lo, hi]: `round_derives`. */
    method RoundDerives(reads_: seq<seq<Row>>, ghost ins: Inputs, lo: nat, hi: nat)
      requires Valid() && |reads_| == sides && Represents(reads_, ins) && hi <= all.sequence
      modifies this`all
      ensures Valid() && Extends(old(all), all)
      ensures Members() == old(Members()) + Steps(Meaning(), ins, KeysBetween(old(all), key, lo, hi))
    {
      assert StepsBy(Meaning(), 0, ins, KeysBetween(all, key, lo, hi)) == iset{};
      for r := 0 to |rules|
        invariant RoundTaken(old(all), all, key, rules, r, ins, lo, hi)
      {
        RuleTaken(old(all), all, key, rules, r, reads_, ins, lo, hi);
        if HasMember(rules[r]) {
          all := RoundInsert(all, key, rules[r], reads_, lo, hi);
        }
      }
      CanonWellFormed(rules, sides, key);
      AllStepsTaken(Meaning(), sides, ins, KeysBetween(old(all), key, lo, hi));
    }

    /** Member rules over the work rows in (lo, hi], kept where the head is still
        a member: `delete_derives`. */
    method DeleteDerives(reads_: seq<seq<Row>>, ghost ins: Inputs, lo: nat, hi: nat)
      requires Valid() && |reads_| == sides && Represents(reads_, ins) && hi <= work.sequence
      modifies this`work
      ensures Valid() && Extends(old(work), work)
      ensures Keys(work, key) ==
                old(Keys(work, key)) + Steps(Meaning(), ins, KeysBetween(old(work), key, lo, hi)) * Members()
    {
      assert StepsBy(Meaning(), 0, ins, KeysBetween(work, key, lo, hi)) == iset{};
      for r := 0 to |rules|
        invariant DeleteTaken(old(work), work, all, key, rules, r, ins, lo, hi)
      {
        DeleteRuleTaken(old(work), work, all, key, rules, r, reads_, ins, lo, hi);
        if HasMember(rules[r]) {
          work := DeleteInsert(work, all, key, rules[r], reads_, lo, hi);
        }
      }
      CanonWellFormed(rules, sides, key);
      AllStepsTaken(Meaning(), sides, ins, KeysBetween(old(work), key, lo, hi));
    }

    /** Semi-naive closure: step from the members above `lo0`, round by round,
        until no newer member appears. */
    method Rounds(reads_: seq<seq<Row>>, ghost ins: Inputs, lo0: nat, ghost bound: iset<Row>,
                  ghost universe: set<Row>) returns (ok: bool)
      requires Valid() && |reads_| == sides && Represents(reads_, ins) && lo0 <= all.sequence
      requires KeysBetween(all, key, lo0, all.sequence) <= bound
      requires StepClosed(Meaning(), ins, Outside(KeysBetween(all, key, 0, lo0)), bound)
      modifies this`all
      ensures Valid() && Extends(old(all), all)
      ensures KeysBetween(all, key, lo0, all.sequence) <= bound && Members() <= old(Members()) + bound
      ensures ok ==> Steps(Meaning(), ins, KeysBetween(all, key, lo0, all.sequence)) <= Members()
      ensures RoundsFit(old(Members()) + bound, universe) ==> ok
    {
      var lo, rounds := lo0, 0;
      ghost var seen := 0;
      assert KeysBetween(all, key, lo0, lo0) == iset{};
      assert Steps(Meaning(), ins, iset{}) == iset{};
      while true
        invariant Valid() && Extends(old(all), all) && lo <= all.sequence
        invariant lo0 <= lo || lo == MaxRowid(all)
        invariant KeysBetween(all, key, 0, lo0) == KeysBetween(old(all), key, 0, lo0)
        invariant KeysBetween(all, key, lo0, all.sequence) <= bound && Members() <= old(Members()) + bound
        invariant Steps(Meaning(), ins, KeysBetween(all, key, lo0, lo)) <= Members()
        invariant seen <= |all.entries| && (rounds <= seen || (rounds == 1 && lo == MaxRowid(all)))
        invariant rounds > 0 && |all.entries| == seen ==> lo == MaxRowid(all)
        decreases BULK_ROUND_BUDGET - rounds
      {
        if rounds >= BULK_ROUND_BUDGET {
          EntriesFit(all, key, old(Members()) + bound, universe);
          return false;
        }
        rounds := rounds + 1;
        var hi := MaxRowid(all);
        MaxRowidBounds(all, key);
        if hi == lo {
          NothingAbove(all, key, lo0, lo);
          return true;
        }
        ghost var t := all;
        seen := |all.entries|;
        RoundDerives(reads_, ins, lo, hi);
        NewerRows(t, all, key);
        ExtendsTransitive(old(all), t, all);
        RoundStaysWithin(t, all, key, Meaning(), ins, lo0, lo, hi, bound);
        KeysBetweenStable(t, all, key, 0, lo0);
        if lo <= hi {
          RoundProcesses(t, all, key, Meaning(), ins, lo0, lo, hi);
        } else {
          EmptyRound(t, all, key, Meaning(), ins, lo, hi);
        }
        lo := hi;
      }
    }

    /** Members with an old derivation through a departed row: `left_derives`. */
    method LeftDerives(reads_: seq<seq<Row>>, ghost ins: Inputs, side: nat)
      requires Valid() && |reads_| == sides && Represents(reads_, ins) && side < sides && RowSet(left) <= ins[side]
      modifies this`work
      ensures Valid()
      ensures Keys(work, key) == old(Keys(work, key)) + Via(Meaning(), ins, Members(), side, RowSet(left)) * Members()
    {
      assert ViaSoFar(Meaning(), 0, 0, ins, Members(), side, RowSet(left)) == iset{};
      for r := 0 to |rules|
        invariant LeftTaken(old(work), work, all, key, rules, r, 0, ins, side, RowSet(left))
      {
        assert WellFormedRule(rules[r], sides);
        for at := 0 to |rules[r].occurrences|
          invariant LeftTaken(old(work), work, all, key, rules, r, at, ins, side, RowSet(left))
        {
          LeftStatementTaken(old(work), work, all, key, rules, r, at, reads_, ins, side, left);
          if rules[r].occurrences[at] == Input(side) {
            work := LeftInsert(work, all, key, rules[r], reads_, at, left);
          }
        }
        NextViaRule(Meaning(), r, ins, Members(), side, RowSet(left));
      }
      CanonWellFormed(rules, sides, key);
      AllViaTaken(Meaning(), sides, ins, Members(), side, RowSet(left));
    }

    /** Derive forward from the arrived rows: `arrive_derives`. */
    method ArriveDerives(reads_: seq<seq<Row>>, ghost ins: Inputs, side: nat, ghost kept: iset<Row>,
                         ghost bound: iset<Row>)
      requires Valid() && |reads_| == sides && Represents(reads_, ins) && side < sides && RowSet(arrived) <= ins[side]
      requires kept <= Members() <= kept + bound
      requires StepClosed(Meaning(), ins, Outside(kept), bound)
      requires Via(Meaning(), ins, kept, side, RowSet(arrived)) <= kept + bound
      modifies this`all
      ensures Valid() && Extends(old(all), all)
      ensures Members() <= kept + bound
      ensures Via(Meaning(), ins, kept, side, RowSet(arrived)) <= Members()
    {
      assert ViaSoFar(Meaning(), 0, 0, ins, kept, side, RowSet(arrived)) == iset{};
      for r := 0 to |rules|
        invariant ArriveTaken(old(all), all, key, rules, r, 0, ins, side, RowSet(arrived), kept, bound)
      {
        assert WellFormedRule(rules[r], sides);
        for at := 0 to |rules[r].occurrences|
          invariant ArriveTaken(old(all), all, key, rules, r, at, ins, side, RowSet(arrived), kept, bound)
        {
          ArriveStatementTaken(old(all), all, key, rules, r, at, reads_, ins, side, arrived, kept, bound);
          if rules[r].occurrences[at] == Input(side) {
            all := ArriveInsert(all, key, rules[r], reads_, at, arrived);
          }
        }
        NextViaRule(Meaning(), r, ins, kept, side, RowSet(arrived));
      }
      CanonWellFormed(rules, sides, key);
      AllViaTaken(Meaning(), sides, ins, kept, side, RowSet(arrived));
    }

    /** One delete round: collect and drop the members named by the work rows in
        (lo, hi], then step from those rows. */
    method DeleteRound(reads_: seq<seq<Row>>, ghost ins: Inputs, ghost t0: Table, ghost m: iset<Row>,
                       ghost seed: iset<Row>, lo: nat, hi: nat)
      requires Valid() && |reads_| == sides && Represents(reads_, ins)
      requires DeleteInvariant(t0, all, work, deleted, key, Meaning(), ins, m, seed, lo) && lo <= hi == MaxRowid(work)
      modifies this`all, this`work, this`deleted
      ensures Valid() && hi <= MaxRowid(work) && Extends(old(work), work)
      ensures DeleteInvariant(t0, all, work, deleted, key, Meaning(), ins, m, seed, hi)
    {
      MaxRowidBounds(work, key);
      var rows := EntryRows(Range(work.entries, lo, hi));
      DropRange(t0, all, deleted, key, work, lo, hi);
      deleted := deleted + Collect(all, key, rows);
      all := DropRows(all, key, rows);
      DeleteDerives(reads_, ins, lo, hi);
      MaxRowidGrows(old(work), work, key);
      DeleteRoundKeeps(t0, old(all), all, old(work), work, old(deleted), deleted, key, Meaning(), ins, m, seed, lo, hi);
    }

    /** Drop what the work rows name, step from them over the old inputs, and
        repeat until no new work row appears. */
    method DeleteRounds(reads_: seq<seq<Row>>, ghost ins: Inputs, ghost universe: set<Row>) returns (ok: bool)
      requires Valid() && |reads_| == sides && Represents(reads_, ins)
      requires deleted == [] && Keys(work, key) <= Members()
      modifies this`all, this`work, this`deleted
      ensures Valid() && DeletedOk(old(all), all, deleted, key)
      ensures ok ==> Keys(work, key) == Reach(Meaning(), ins, old(Keys(work, key)), old(Members()))
      ensures ok ==> Members() == old(Members()) - Keys(work, key)
      ensures RoundsFit(old(Members()), universe) ==> ok
    {
      ghost var t0, m, seed := all, Members(), Keys(work, key);
      var lo, rounds := 0, 0;
      ghost var seen := 0;
      DeleteLoopStart(all, work, key, Meaning(), ins);
      while true
        invariant DeleteInvariant(t0, all, work, deleted, key, Meaning(), ins, m, seed, lo)
        invariant 0 <= lo <= MaxRowid(work)
        invariant rounds <= seen <= |work.entries| && (|work.entries| == seen ==> MaxRowid(work) == lo)
        decreases BULK_ROUND_BUDGET - rounds
      {
        if rounds >= BULK_ROUND_BUDGET {
          WorkFits(t0, all, work, deleted, key, Meaning(), ins, m, seed, lo, universe);
          return false;
        }
        rounds := rounds + 1;
        var hi := MaxRowid(work);
        if hi == lo {
          DeleteLoopDone(t0, all, work, deleted, key, Meaning(), ins, m, seed, lo);
          return true;
        }
        ghost var w := work;
        seen := |work.entries|;
        DeleteRound(reads_, ins, t0, m, seed, lo, hi);
        NewerRows(w, work, key);
        lo := hi;
      }
    }

    /** Store again every work row that some rule still concludes: `restore`. */
    method Restore(reads_: seq<seq<Row>>, ghost ins: Inputs)
      requires Valid() && |reads_| == sides && Represents(reads_, ins)
      modifies this`all
      ensures Valid() && Extends(old(all), all)
      ensures Members() == old(Members()) + Keys(work, key) * Conclusions(Meaning(), ins, old(Members()))
    {
      var rows := RestoredRows(rules, key, reads_, all, work);
      RestoredKeys(rules, key, reads_, ins, all, work);
      InsertAllKeepsTable(all, key, rows);
      all := InsertAll(all, key, rows);
    }

    /** Departures: delete everything the left rows reached over the old inputs. */
    method DeletePhase(inputs: seq<Side>, side: nat, ghost universe: set<Row>) returns (ok: bool)
      requires Valid() && |inputs| == sides && SidesOk(inputs) && side < sides
      requires RowSet(left) == Gone(Before(inputs), After(inputs), side)
      modifies this`all, this`work, this`deleted
      ensures Valid() && DeletedOk(old(all), all, deleted, key)
      ensures ok ==> Keys(work, key) == Dropped(Meaning(), Before(inputs), After(inputs), side, old(Members()))
      ensures ok ==> Members() == old(Members()) - Keys(work, key)
      ensures RoundsFit(old(Members()), universe) ==> ok
    {
      ghost var m := Members();
      ReadsRepresent(inputs);
      work, deleted := Cleared(work), [];
      assert Keys(work, key) == iset{};
      LeftDerives(BeforeReads(inputs), Before(inputs), side);
      assert Keys(work, key) == DroppedSeed(Meaning(), Before(inputs), After(inputs), side, m);
      ok := DeleteRounds(BeforeReads(inputs), Before(inputs), universe);
    }

    /** Then store again what still follows from the new inputs, and close. */
    method RederivePhase(inputs: seq<Side>, ghost bound: iset<Row>, ghost universe: set<Row>) returns (ok: bool)
      requires Valid() && |inputs| == sides && SidesOk(inputs)
      requires StepClosed(Meaning(), After(inputs), Outside(Members()), bound)
      requires Keys(work, key) * Conclusions(Meaning(), After(inputs), Members()) <= bound
      modifies this`all, this`work
      ensures Valid() && Extends(old(all), all)
      ensures Members() <= old(Members()) + bound
      ensures old(Keys(work, key)) * Conclusions(Meaning(), After(inputs), old(Members())) <= Members()
      ensures RoundsFit(old(Members()) + bound, universe) ==> ok
    {
      ReadsRepresent(inputs);
      var restored := MaxRowid(all);
      Restore(CurrentReads(inputs), After(inputs));
      RestoredRange(old(all), all, key, bound);
      ghost var all1 := all;
      ok := Rounds(CurrentReads(inputs), After(inputs), restored, bound, universe);
      ExtendsTransitive(old(all), all1, all);
      KeysGrow(all1, all, key);
      work := Cleared(work);
    }

    /** Arrivals: derive forward from the new rows, then close over everything
        stored since the pass began. */
    method ArrivePhase(inputs: seq<Side>, side: nat, lo: nat, ghost t0: Table, ghost kept: iset<Row>,
                       ghost bound: iset<Row>, ghost universe: set<Row>) returns (ok: bool)
      requires Valid() && |inputs| == sides && SidesOk(inputs) && side < sides
      requires RowSet(arrived) == Arrived(Before(inputs), After(inputs), side)
      requires PassState(t0, all, deleted, key, lo, kept, bound)
      requires StepClosed(Meaning(), After(inputs), Outside(kept), bound)
      requires Via(Meaning(), After(inputs), kept, side, RowSet(arrived)) <= kept + bound
      modifies this`all
      ensures Valid() && Extends(old(all), all)
      ensures PassState(t0, all, deleted, key, lo, kept, bound)
      ensures Via(Meaning(), After(inputs), kept, side, RowSet(arrived)) <= Members()
      ensures ok ==> Steps(Meaning(), After(inputs), KeysBetween(all, key, lo, all.sequence)) <= Members()
      ensures RoundsFit(kept + bound, universe) ==> ok
    {
      ReadsRepresent(inputs);
      AllKeys(all, key, lo);
      ArriveDerives(CurrentReads(inputs), After(inputs), side, kept, bound);
      ghost var all1 := all;
      PassExtends(t0, old(all), all1, deleted, key, lo, kept, bound);
      ok := Rounds(CurrentReads(inputs), After(inputs), lo, bound, universe);
      PassExtends(t0, all1, all, deleted, key, lo, kept, bound);
      KeysGrow(all1, all, key);
      ExtendsTransitive(old(all), all1, all);
    }

    /** Departures first, if anything left the side. */
    method Departures(inputs: seq<Side>, side: nat, ghost universe: set<Row>) returns (ok: bool, anyLeft: bool)
      requires Valid() && |inputs| == sides && SidesOk(inputs) && side < sides
      requires RowSet(left) == Gone(Before(inputs), After(inputs), side)
      modifies this`all, this`work, this`deleted
      ensures Valid() && (!anyLeft ==> deleted == [])
      ensures ok ==>
                MidPass(Meaning(), Before(inputs), After(inputs), side, old(Members()), old(all), all, deleted, key)
      ensures ok ==> Restored(Meaning(), Before(inputs), After(inputs), side, old(Members())) <= Members()
      ensures PassFits(Meaning(), inputs, side, old(Members()), universe) ==> ok
    {
      ghost var before, after, m := Before(inputs), After(inputs), Members();
      ghost var dropped := Dropped(Meaning(), before, after, side, m);
      ghost var bound := Fresh(Meaning(), before, after, side, m - dropped, dropped);
      anyLeft := left != [];
      if anyLeft {
        FreshClosed(Meaning(), before, after, side, m - dropped, dropped);
        RestoreIsFresh(Meaning(), before, after, side, m - dropped, dropped);
        ok := DeletePhase(inputs, side, universe);
        if !ok { return; }
        ghost var all1 := all;
        ok := RederivePhase(inputs, bound, universe);
        AfterRestore(old(all), all1, all, deleted, key, bound);
      } else {
        LeftEmpty(Meaning(), before, after, side, m, left);
        deleted := [];
        PassStart(all, key, bound);
        ok := true;
      }
    }

    /** The members of one pass: departures, then arrivals. */
    method PassMembers(inputs: seq<Side>, side: nat, ghost universe: set<Row>)
      returns (ok: bool, anyLeft: bool, lo: nat)
      requires Valid() && |inputs| == sides && SidesOk(inputs) && side < sides
      requires RowSet(left) == Gone(Before(inputs), After(inputs), side)
      requires RowSet(arrived) == Arrived(Before(inputs), After(inputs), side)
      modifies this`all, this`work, this`deleted
      ensures Valid() && (!anyLeft ==> deleted == [])
      ensures ok ==> Members() == AfterSide(Meaning(), Before(inputs), After(inputs), side, old(Members()))
      ensures ok ==> PassDone(old(all), all, deleted, key, lo)
      ensures PassFits(Meaning(), inputs, side, old(Members()), universe) ==> ok
    {
      ghost var before, after, m := Before(inputs), After(inputs), Members();
      ghost var dropped := Dropped(Meaning(), before, after, side, m);
      ghost var kept := m - dropped;
      ghost var bound := Fresh(Meaning(), before, after, side, kept, dropped);
      lo := MaxRowid(all);
      ok, anyLeft := Departures(inputs, side, universe);
      if !ok { return; }
      FreshClosed(Meaning(), before, after, side, kept, dropped);
      ArrivalIsFresh(Meaning(), before, after, side, kept, dropped, RowSet(arrived));
      ghost var all1 := all;
      ok := ArrivePhase(inputs, side, lo, old(all), kept, bound, universe);
      if !ok { return; }
      PassFinish(Meaning(), before, after, side, m, all1, all, key, lo, RowSet(arrived));
    }

    /** One delete-and-rederive pass over the arrived and left sets of `side`. A round
        that goes on has stored a new work row or member, so the pass succeeds whenever
        all that it may store fits the round budget. */
    method Pass(inputs: seq<Side>, side: nat, ghost universe: set<Row>) returns (ok: bool, written: nat)
      requires Valid() && |inputs| == sides && SidesOk(inputs) && side < sides
      requires RowSet(left) == Gone(Before(inputs), After(inputs), side)
      requires RowSet(arrived) == Arrived(Before(inputs), After(inputs), side)
      modifies this`all, this`work, this`deleted, this`out
      ensures Valid()
      ensures ok ==> Members() == AfterSide(Meaning(), Before(inputs), After(inputs), side, old(Members()))
      ensures ok ==> |out| == |old(out)| + written && (old(Units(out)) ==> Units(out))
      ensures ok ==> forall r :: Net(out, r) == Net(old(out), r) + Count(all.entries, r) - Count(old(all).entries, r)
      ensures PassFits(Meaning(), inputs, side, old(Members()), universe) ==> ok
    {
      written := 0;
      var anyLeft, lo;
      ok, anyLeft, lo := PassMembers(inputs, side, universe);
      if ok {
        written := Emit(anyLeft, lo, old(all));
      }
    }

    /** Deltas: a deleted member gone for good retracts; one stored again under
        another representative retracts the old row and emits the new one; other
        rows past `lo` are new. */
    method Emit(anyLeft: bool, lo: nat, ghost t0: Table) returns (written: nat)
      requires Valid() && PassDone(t0, all, deleted, key, lo) && (!anyLeft ==> deleted == [])
      modifies this`deleted, this`out
      ensures Valid() && |out| == |old(out)| + written && (old(Units(out)) ==> Units(out))
      ensures forall r :: Net(out, r) == Net(old(out), r) + Count(all.entries, r) - Count(t0.entries, r)
    {
      var emitted := |out|;
      if anyLeft {
        forall r
          ensures Net(Emitted(out, deleted, all, key, lo), r) ==
                    Net(out, r) + Count(all.entries, r) - Count(t0.entries, r) {
          EmissionConserves(t0, all, deleted, key, lo, out, r);
        }
        out := Emitted(out, deleted, all, key, lo);
        deleted := [];
      } else {
        forall r
          ensures Net(out + Weigh(EntryRows(Range(all.entries, lo, all.sequence)), 1), r) ==
                    Net(out, r) + Count(all.entries, r) - Count(t0.entries, r) {
          SeedConserves(t0, all, key, lo, out, r);
        }
        out := out + Weigh(EntryRows(Range(all.entries, lo, all.sequence)), 1);
      }
      written := |out| - emitted;
    }

    /** Identify the rows of a side whose support crosses zero in this batch. */
    method Split(s: Side)
      requires Valid() && SideOk(s)
      modifies this`left, this`arrived
      ensures Valid()
      ensures RowSet(left) == BeforeSet(s) - AfterSet(s) && RowSet(arrived) == AfterSet(s) - BeforeSet(s)
    {
      left := LeftRows(s);
      arrived := ArrivedRows(s);
      SplitExact(s);
    }

    /** One side of a batch: a pass when its input wrote rows. */
    method DrainSide(inputs: seq<Side>, touched: bool, side: nat, ghost universe: set<Row>)
      returns (ok: bool, written: nat)
      requires Valid() && |inputs| == sides && SidesOk(inputs) && side < sides
      requires !touched ==> inputs[side].delta == []
      modifies this
      ensures Valid()
      ensures ok ==> Members() == AfterSide(Meaning(), Before(inputs), After(inputs), side, old(Members()))
      ensures ok ==> |out| == |old(out)| + written && (old(Units(out)) ==> Units(out))
      ensures ok ==> forall r :: Net(out, r) == Net(old(out), r) + Count(all.entries, r) - Count(old(all).entries, r)
      ensures PassFits(Meaning(), inputs, side, old(Members()), universe) ==> ok
    {
      ok, written := true, 0;
      if touched {
        Split(inputs[side]);
        ok, written := Pass(inputs, side, universe);
      } else {
        UntouchedSide(inputs, side);
        UnchangedSide(Meaning(), Before(inputs), After(inputs), side, Members());
      }
    }

    /** Maintenance of the node for one batch, side by side. */
    method Drain(inputs: seq<Side>, touched: seq<bool>, ghost universe: set<Row>) returns (ok: bool, written: nat)
      requires Valid() && |inputs| == sides && SidesOk(inputs)
      requires |touched| == sides && forall s | 0 <= s < sides && !touched[s] :: inputs[s].delta == []
      modifies this
      ensures Valid()
      ensures ok ==> Members() == AfterSides(Meaning(), Before(inputs), After(inputs), old(Members()), sides)
      ensures ok ==> |out| == |old(out)| + written && (old(Units(out)) ==> Units(out))
      ensures ok ==> forall r :: Net(out, r) == Net(old(out), r) + Count(all.entries, r) - Count(old(all).entries, r)
      ensures DrainFits(Meaning(), inputs, old(Members()), universe) ==> ok
    {
      written := 0;
      ok := true;
      ghost var before, after, m := Before(inputs), After(inputs), Members();
      for side := 0 to sides
        invariant Valid() && ok
        invariant Members() == AfterSides(Meaning(), before, after, m, side)
        invariant |out| == |old(out)| + written && (old(Units(out)) ==> Units(out))
        invariant NetsChange(old(out), out, old(all), all)
      {
        LastPass(Meaning(), before, after, m, side + 1, Members());
        var more;
        ghost var out', all' := out, all;
        PassOfDrain(Meaning(), inputs, m, side, universe);
        ok, more := DrainSide(inputs, touched[side], side, universe);
        if !ok { return; }
        assert Members() == AfterSides(Meaning(), before, after, m, side + 1);
        NetsBoth(old(out), out', out, old(all), all', all);
        written := written + more;
      }
      work := Cleared(work);
    }

    /** Every rule once over the members so far: the anchor statements. */
    method Anchor(reads_: seq<seq<Row>>, ghost ins: Inputs)
      requires Valid() && |reads_| == sides && Represents(reads_, ins) && Members() <= Lfp(Meaning(), ins)
      modifies this`all
      ensures Valid() && Extends(old(all), all)
      ensures Bases(Meaning(), ins) <= Members() <= Lfp(Meaning(), ins)
    {
      assert BasesBy(Meaning(), 0, ins) == iset{};
      for r := 0 to |rules|
        invariant Anchored(old(all), all, key, rules, r, ins)
      {
        assert WellFormedRule(rules[r], sides);
        AnchorStatement(old(all), all, key, rules, r, reads_, ins);
        all := InsertAll(all, key, DerivedRows(rules[r], reads_, EntryRows(all.entries)));
      }
      forall x | x in Bases(Meaning(), ins) ensures x in BasesBy(Meaning(), |rules|, ins) {
        BaseIsRuleConcludes(Meaning(), ins, x);
      }
    }

    /** Initial population: the anchors, then rounds until nothing new is stored. */
    method Populate(inputs: seq<Side>, ghost universe: set<Row>) returns (ok: bool, written: nat)
      requires Valid() && |inputs| == sides && SidesOk(inputs) && all.entries == []
      modifies this`all, this`out
      ensures Valid()
      ensures ok ==> Members() == Lfp(Meaning(), After(inputs))
      ensures ok ==> out == old(out) + Weigh(EntryRows(all.entries), 1) && written == |all.entries|
      ensures RoundsFit(Lfp(Meaning(), After(inputs)), universe) ==> ok
    {
      ghost var ins := After(inputs);
      ReadsRepresent(inputs);
      written := 0;
      var lo := MaxRowid(all);
      assert Members() == iset{};
      Anchor(CurrentReads(inputs), ins);
      assert KeysBetween(all, key, 0, 0) == iset{};
      assert Steps(Meaning(), ins, iset{}) == iset{};
      var rounds := 0;
      while true
        invariant Valid() && 0 <= lo <= MaxRowid(all) && rounds <= |all.entries| && out == old(out)
        invariant Bases(Meaning(), ins) <= Members() <= Lfp(Meaning(), ins)
        invariant Steps(Meaning(), ins, KeysBetween(all, key, 0, lo)) <= Members()
        decreases BULK_ROUND_BUDGET - rounds
      {
        if rounds >= BULK_ROUND_BUDGET {
          EntriesFit(all, key, Lfp(Meaning(), ins), universe);
          return false, 0;
        }
        rounds := rounds + 1;
        var hi := MaxRowid(all);
        MaxRowidBounds(all, key);
        if hi == lo {
          break;
        }
        ghost var t := all;
        var stored := |all.entries|;
        RoundDerives(CurrentReads(inputs), ins, lo, hi);
        RoundProcesses(t, all, key, Meaning(), ins, 0, lo, hi);
        RoundInLfp(t, key, Meaning(), ins, lo, hi);
        MaxRowidGrows(t, all, key);
        lo := hi;
        if |all.entries| == stored {
          assert all.entries == t.entries;
          break;
        }
      }
      PopulationClosed(all, key, Meaning(), ins, lo);
      out := out + Weigh(EntryRows(all.entries), 1);
      return true, |all.entries|;
    }
  }

  /** The members before a pass and after it fit the round budget. */
  ghost predicate PassFits(rules: seq<Rule>, inputs: seq<Side>, side: nat, m: iset<Row>, universe: set<Row>)
    requires side < |inputs|
  {
    RoundsFit(m + AfterSide(rules, Before(inputs), After(inputs), side, m), universe)
  }

  /** So do the members between any two passes. */
  ghost predicate DrainFits(rules: seq<Rule>, inputs: seq<Side>, m: iset<Row>, universe: set<Row>) {
    forall k: nat | k <= |inputs| :: RoundsFit(AfterSides(rules, Before(inputs), After(inputs), m, k), universe)
  }

  /** It is enough that the universe is closed under the rules over the new inputs and
      holds the old members. */
  lemma ClosedFits(rules: seq<Rule>, inputs: seq<Side>, m: iset<Row>, universe: set<Row>)
    requires RoundsFit(m, universe) && Closed(rules, After(inputs), iset x | x in universe)
    ensures DrainFits(rules, inputs, m, universe)
  {
    forall k: nat | k <= |inputs|
      ensures RoundsFit(AfterSides(rules, Before(inputs), After(inputs), m, k), universe) {
      AfterSidesWithin(rules, Before(inputs), After(inputs), m, k, iset x | x in universe);
    }
  }

  lemma PassOfDrain(rules: seq<Rule>, inputs: seq<Side>, m: iset<Row>, side: nat, universe: set<Row>)
    requires side < |inputs|
    ensures DrainFits(rules, inputs, m, universe) ==>
              PassFits(rules, inputs, side, AfterSides(rules, Before(inputs), After(inputs), m, side), universe)
  {
    var before, after := Before(inputs), After(inputs);
    LastPass(rules, before, after, m, side + 1, AfterSides(rules, before, after, m, side));
    if DrainFits(rules, inputs, m, universe) {
      assert RoundsFit(AfterSides(rules, before, after, m, side), universe);
      assert RoundsFit(AfterSides(rules, before, after, m, side + 1), universe);
    }
  }

  /** The rows written from `out` to `out'` net the entries of `all'` minus those of `all`. */
  ghost predicate NetsChange(out: Bag, out': Bag, all: Table, all': Table) {
    forall r :: Net(out', r) == Net(out, r) + Count(all'.entries, r) - Count(all.entries, r)
  }

  lemma NetsBoth(a: Bag, b: Bag, c: Bag, ta: Table, tb: Table, tc: Table)
    requires NetsChange(a, b, ta, tb) && NetsChange(b, c, tb, tc)
    ensures NetsChange(a, c, ta, tc)
  {
  }

  /** A drained node holds the least fixpoint of the current inputs when it held
      that of the old ones and the batch is safe; it never loses a member of it. */
  lemma DrainedMeaning(rules: seq<Rule>, inputs: seq<Side>, old_: iset<Row>, new_: iset<Row>)
    requires old_ == Lfp(rules, Before(inputs))
    requires new_ == AfterSides(rules, Before(inputs), After(inputs), old_, |inputs|)
    ensures Lfp(rules, After(inputs)) <= new_
    ensures SafeBatch(StepSides(rules), Before(inputs), After(inputs)) ==> new_ == Lfp(rules, After(inputs))
  {
    DrainLosesNothing(rules, Before(inputs), After(inputs));
    if SafeBatch(StepSides(rules), Before(inputs), After(inputs)) {
      DrainExact(rules, StepSides(rules), Before(inputs), After(inputs));
    }
  }
}

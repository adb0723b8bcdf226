/** Applying an output delta to the stored result, either copy by copy or, for a
    group output that shows its keys, in place row by row. */
module ApplyState {
  import opened Rows
  import opened Bags
  import opened Tables

  const BULK_MULTIPLICITY_BUDGET: int := 1_000_000

  function Stored(entries: seq<Entry>): (s: Bag) {
    Weigh(EntryRows(entries), 1)
  }

  function One(r: Row): int {
    1
  }

  /** All copies of all rows. */
  function Total(s: Bag): int {
    WSum(s, One)
  }

  /** What the delta takes away, as actual copies. */
  function Retractions(out: Bag): (s: Bag)
    ensures Positive(s)
  {
    if out == [] then []
    else (if out[0].m < 0 then [Weighted(out[0].row, -out[0].m)] else []) + Retractions(out[1..])
  }

  function Additions(out: Bag): (s: Bag)
    ensures Positive(s)
  {
    if out == [] then []
    else (if out[0].m > 0 then [out[0]] else []) + Additions(out[1..])
  }

  lemma {:induction false} NetParts(out: Bag, r: Row)
    ensures Net(out, r) == Net(Additions(out), r) - Net(Retractions(out), r)
  {
    if out != [] {
      NetParts(out[1..], r);
      NetAppend(if out[0].m > 0 then [out[0]] else [], Additions(out[1..]), r);
      NetAppend(if out[0].m < 0 then [Weighted(out[0].row, -out[0].m)] else [], Retractions(out[1..]), r);
    }
  }

  lemma {:induction false} NothingRetracted(out: Bag)
    requires Positive(out)
    ensures Retractions(out) == []
  {
    if out != [] {
      NothingRetracted(out[1..]);
    }
  }

  predicate WithinPeak(out: Bag) {
    forall i | 0 <= i < |out| :: out[i].m <= BULK_MULTIPLICITY_BUDGET
  }

  /** A bag inside another has as many copies only when they are the same. */
  lemma EqualTotals(a: Bag, b: Bag)
    requires forall r :: Net(b, r) <= Net(a, r)
    ensures Total(b) <= Total(a)
    ensures Total(a) == Total(b) <==> Same(a, b)
  {
    var z := Consolidate(a + Negated(b));
    ConsolidateSame(a + Negated(b));
    forall r ensures Net(z, r) == Net(a, r) - Net(b, r) && Net(a + Negated(b), r) >= 0 {
      NetAppend(a, Negated(b), r);
      NetNegated(b, r);
    }
    WSumDelta(z, b, a, One);
    ConsolidatePositive(a + Negated(b));
    TotalPositive(z);
    if z != [] {
      NetPositive(z, z[0].row);
      assert RowsOf(z)[0] == z[0].row;
    }
  }

  lemma {:induction false} TotalPositive(s: Bag)
    requires Positive(s)
    ensures Total(s) >= |s|
  {
    if s != [] {
      TotalPositive(s[1..]);
    }
  }

  lemma {:induction false} TotalStored(entries: seq<Entry>)
    ensures Total(Stored(entries)) == |entries|
  {
    if entries != [] {
      TotalStored(entries[1..]);
      assert Stored(entries)[1..] == Stored(entries[1..]);
    }
  }

  lemma NetCons(e: Entry, rest: seq<Entry>, r: Row)
    ensures Net(Stored([e] + rest), r) == (if e.row == r then 1 else 0) + Net(Stored(rest), r)
  {
    assert Stored([e] + rest)[1..] == Stored(rest);
  }

  lemma NetSnoc(entries: seq<Entry>, e: Entry, r: Row)
    ensures Net(Stored(entries + [e]), r) == Net(Stored(entries), r) + if e.row == r then 1 else 0
  {
    assert Stored(entries + [e]) == Stored(entries) + [Weighted(e.row, 1)];
    NetAppend(Stored(entries), [Weighted(e.row, 1)], r);
  }

  lemma {:induction false} NetStored(entries: seq<Entry>, r: Row)
    ensures Net(Stored(entries), r) >= 0
    ensures Net(Stored(entries), r) > 0 <==> exists e :: e in entries && e.row == r
  {
    if entries != [] {
      NetStored(entries[1..], r);
      assert entries == [entries[0]] + entries[1..];
      NetCons(entries[0], entries[1..], r);
    }
  }

  // ---------------------------------------------------------------- copy by copy

  /** DELETE the first copies, in rowid order, of every retracted row: a copy goes
      when its rank among its equals, `seen` included, is within the retraction. */
  function Retract(seen: seq<Entry>, entries: seq<Entry>, retractions: Bag): (kept: seq<Entry>)
    ensures |kept| <= |entries|
    decreases entries
  {
    if entries == [] then []
    else
      var e := entries[0];
      (if Net(Stored(seen + [e]), e.row) <= Net(retractions, e.row) then [] else [e])
      + Retract(seen + [e], entries[1..], retractions)
  }

  function Least(a: int, b: int): int {
    if a < b then a else b
  }

  lemma {:induction false} RetractTakes(seen: seq<Entry>, entries: seq<Entry>, retractions: Bag, r: Row)
    ensures
      var kept := Net(Stored(Retract(seen, entries, retractions)), r);
      var n, m := Net(Stored(seen), r), Net(retractions, r);
      Net(Stored(entries), r) - kept == if n >= m then 0 else Least(Net(Stored(entries), r), m - n)
    decreases entries
  {
    if entries != [] {
      var e := entries[0];
      var rest := Retract(seen + [e], entries[1..], retractions);
      RetractTakes(seen + [e], entries[1..], retractions, r);
      NetSnoc(seen, e, r);
      NetSnoc(seen, e, e.row);
      assert entries == [e] + entries[1..];
      NetCons(e, entries[1..], r);
      NetCons(e, rest, r);
      NetStored(entries[1..], r);
      assert [] + rest == rest;
    }
  }

  /** What goes of a row are its first copies: as many as are retracted, `seen` ones
      counted. */
  lemma {:induction false} RetractFirst(seen: seq<Entry>, entries: seq<Entry>, retractions: Bag, sequence: nat, i: nat)
    requires i < |entries| && Ordered(entries, sequence)
    ensures
      var e := entries[i];
      e in Retract(seen, entries, retractions) <==>
        Net(Stored(seen), e.row) + Net(Stored(entries[..i]), e.row) >= Net(retractions, e.row)
    decreases entries
  {
    var e, next := entries[0], entries[1..];
    var rest := Retract(seen + [e], next, retractions);
    OrderedTail(entries, sequence);
    RetractOrdered(seen + [e], next, retractions, sequence);
    NetSnoc(seen, e, e.row);
    if i == 0 {
      assert e !in rest;
      assert entries[..0] == [];
    } else {
      var x := entries[i];
      RetractFirst(seen + [e], next, retractions, sequence, i - 1);
      assert next[i - 1] == x && x in next && x != e;
      assert entries[..i] == [e] + next[..i - 1];
      NetCons(e, next[..i - 1], x.row);
      NetSnoc(seen, e, x.row);
    }
  }

  /** INSERT every addition as often as it says. */
  function Copies(t: Table, row: Row, n: nat): Table
    decreases n
  {
    if n == 0 then t else Copies(Table(t.entries + [Entry(t.sequence + 1, row)], t.sequence + 1), row, n - 1)
  }

  function Extend(t: Table, out: Bag): Table
    decreases out
  {
    if out == [] then t
    else Extend(if out[0].m > 0 then Copies(t, out[0].row, out[0].m) else t, out[1..])
  }

  lemma {:induction false} CopiesAdd(t: Table, row: Row, n: nat, r: Row)
    requires Ordered(t.entries, t.sequence)
    ensures Ordered(Copies(t, row, n).entries, Copies(t, row, n).sequence)
    ensures Net(Stored(Copies(t, row, n).entries), r) == Net(Stored(t.entries), r) + if row == r then n else 0
    decreases n
  {
    if n > 0 {
      NetSnoc(t.entries, Entry(t.sequence + 1, row), r);
      CopiesAdd(Table(t.entries + [Entry(t.sequence + 1, row)], t.sequence + 1), row, n - 1, r);
    }
  }

  lemma {:induction false} ExtendAdds(t: Table, out: Bag, r: Row)
    requires Ordered(t.entries, t.sequence)
    ensures Ordered(Extend(t, out).entries, Extend(t, out).sequence)
    ensures Net(Stored(Extend(t, out).entries), r) == Net(Stored(t.entries), r) + Net(Additions(out), r)
    decreases out
  {
    if out != [] {
      var u := if out[0].m > 0 then Copies(t, out[0].row, out[0].m) else t;
      if out[0].m > 0 {
        CopiesAdd(t, out[0].row, out[0].m, r);
        NetAppend([out[0]], Additions(out[1..]), r);
      }
      ExtendAdds(u, out[1..], r);
      assert [] + Additions(out[1..]) == Additions(out[1..]);
    }
  }

  lemma OrderedTail(entries: seq<Entry>, sequence: nat)
    requires entries != [] && Ordered(entries, sequence)
    ensures Ordered(entries[1..], sequence) && forall x | x in entries[1..] :: entries[0].id < x.id && x in entries
  {
    forall x | x in entries[1..] ensures entries[0].id < x.id {
      var j :| 0 <= j < |entries[1..]| && entries[1..][j] == x;
      assert entries[j + 1] == x;
    }
  }

  lemma OrderedCons(e: Entry, rest: seq<Entry>, sequence: nat)
    requires Ordered(rest, sequence) && 0 < e.id <= sequence && forall x | x in rest :: e.id < x.id
    ensures Ordered([e] + rest, sequence)
  {
    assert forall i | 0 <= i < |rest| :: rest[i] in rest;
  }

  lemma {:induction false} RetractOrdered(seen: seq<Entry>, entries: seq<Entry>, retractions: Bag, sequence: nat)
    requires Ordered(entries, sequence)
    ensures Ordered(Retract(seen, entries, retractions), sequence)
    ensures forall e | e in Retract(seen, entries, retractions) :: e in entries
    decreases entries
  {
    if entries != [] {
      var e := entries[0];
      var rest := Retract(seen + [e], entries[1..], retractions);
      OrderedTail(entries, sequence);
      RetractOrdered(seen + [e], entries[1..], retractions, sequence);
      OrderedCons(e, rest, sequence);
      assert [] + rest == rest;
    }
  }

  /** No row is taken away more often than it is stored. */
  ghost predicate Covered(entries: seq<Entry>, retractions: Bag) {
    forall r :: Net(retractions, r) <= Net(Stored(entries), r)
  }

  /** The retractions all found their copies exactly when no row is taken away more
      often than it is stored. */
  lemma RetractCount(entries: seq<Entry>, retractions: Bag)
    requires Positive(retractions)
    ensures |entries| - |Retract([], entries, retractions)| == Total(retractions) <==> Covered(entries, retractions)
  {
    var kept := Retract([], entries, retractions);
    var gone := Stored(entries) + Negated(Stored(kept));
    forall r ensures Net(gone, r) == Least(Net(Stored(entries), r), Net(retractions, r)) {
      RetractTakes([], entries, retractions, r);
      NetAppend(Stored(entries), Negated(Stored(kept)), r);
      NetNegated(Stored(kept), r);
      NetStored(entries, r);
      NetPositive(retractions, r);
    }
    EqualTotals(retractions, gone);
    WSumAppend(Stored(entries), Negated(Stored(kept)), One);
    WSumNegated(Stored(kept), One);
    TotalStored(entries);
    TotalStored(kept);
    assert Total(gone) == |entries| - |kept|;
    if Same(retractions, gone) {
      forall r ensures Net(retractions, r) <= Net(Stored(entries), r) {
        assert Net(gone, r) == Net(retractions, r);
      }
    }
    if Covered(entries, retractions) {
      forall r ensures Net(retractions, r) == Net(gone, r) {
        assert Net(gone, r) == Least(Net(Stored(entries), r), Net(retractions, r));
      }
    }
  }

  /** Covered retractions and all additions lead to the old rows plus the delta. */
  lemma CopiesApplied(t: Table, out: Bag)
    requires Ordered(t.entries, t.sequence) && Covered(t.entries, Retractions(out))
    ensures
      var next := Extend(Table(Retract([], t.entries, Retractions(out)), t.sequence), out);
      Ordered(next.entries, next.sequence) &&
      forall r :: Net(Stored(next.entries), r) == Net(Stored(t.entries), r) + Net(out, r)
  {
    var retractions := Retractions(out);
    var kept := Table(Retract([], t.entries, retractions), t.sequence);
    RetractOrdered([], t.entries, retractions, t.sequence);
    ExtendAdds(kept, out, []);
    forall r ensures Net(Stored(Extend(kept, out).entries), r) == Net(Stored(t.entries), r) + Net(out, r) {
      ExtendAdds(kept, out, r);
      RetractTakes([], t.entries, retractions, r);
      NetStored(t.entries, r);
      NetPositive(retractions, r);
      NetParts(out, r);
    }
  }

  // -------------------------------------------------------------------- in place

  predicate Takes(out: Bag, group: Row -> Row, g: Row) {
    exists i :: 0 <= i < |out| && out[i].m < 0 && group(out[i].row) == g
  }

  predicate Gives(out: Bag, group: Row -> Row, g: Row) {
    exists i :: 0 <= i < |out| && out[i].m > 0 && group(out[i].row) == g
  }

  /** What a group node over stored groups emits: per group at most one row goes
      and at most one comes. */
  ghost predicate GroupDelta(out: Bag, group: Row -> Row) {
    && (forall i | 0 <= i < |out| :: out[i].m == 1 || out[i].m == -1)
    && (forall i, j | 0 <= i < j < |out| :: out[i].m == out[j].m ==> group(out[i].row) != group(out[j].row))
  }

  /** The scalar subquery: the first row given to a group. */
  function FirstGiven(out: Bag, group: Row -> Row, g: Row): (row: Row)
    ensures Gives(out, group, g) ==> group(row) == g && exists i :: 0 <= i < |out| && out[i].m > 0 && out[i].row == row
  {
    if out == [] then []
    else if out[0].m > 0 && group(out[0].row) == g then out[0].row
    else
      assert Gives(out, group, g) ==> Gives(out[1..], group, g);
      FirstGiven(out[1..], group, g)
  }

  predicate Swaps(out: Bag, group: Row -> Row, row: Row) {
    Takes(out, group, group(row)) && Gives(out, group, group(row))
  }

  /** UPDATE the rows of groups that lose one row and get another. */
  function ReplaceRows(entries: seq<Entry>, out: Bag, group: Row -> Row): (next: seq<Entry>)
    ensures |next| == |entries|
    ensures forall i | 0 <= i < |entries| :: next[i] == Replaced(entries[i], out, group)
  {
    seq(|entries|, i requires 0 <= i < |entries| => Replaced(entries[i], out, group))
  }

  function Replaced(e: Entry, out: Bag, group: Row -> Row): Entry {
    if Swaps(out, group, e.row) then Entry(e.id, FirstGiven(out, group, group(e.row))) else e
  }

  /** DELETE the rows of groups that only lose a row. */
  function DropRows(entries: seq<Entry>, out: Bag, group: Row -> Row): seq<Entry> {
    Keep(entries, x => !Takes(out, group, group(x)) || Gives(out, group, group(x)))
  }

  /** INSERT the rows of groups that have none in `stored`. */
  function AddRows(t: Table, stored: seq<Entry>, out: Bag, group: Row -> Row): Table
    decreases out
  {
    if out == [] then t
    else AddRows(if out[0].m > 0 && !HasKey(stored, group, group(out[0].row)) then Copies(t, out[0].row, 1) else t,
                 stored, out[1..], group)
  }

  /** The rows that some retraction names the group of. */
  function TakenRows(entries: seq<Entry>, out: Bag, group: Row -> Row): seq<Entry> {
    Keep(entries, x => Takes(out, group, group(x)))
  }

  // ------------------------------------------------------------- in place: lemmas

  lemma UniqueNet(entries: seq<Entry>, group: Row -> Row, r: Row)
    requires Unique(entries, group)
    ensures Net(Stored(entries), r) == if r in EntryRows(entries) then 1 else 0
  {
    NetWeigh(EntryRows(entries), 1, r);
  }

  lemma RowHasKey(entries: seq<Entry>, group: Row -> Row, r: Row)
    requires r in EntryRows(entries)
    ensures HasKey(entries, group, group(r))
  {
    var i :| 0 <= i < |EntryRows(entries)| && EntryRows(entries)[i] == r;
    assert entries[i].row == r;
  }

  /** Replacing rows in place keeps their rowids, groups and order. */
  lemma ReplaceKeeps(entries: seq<Entry>, out: Bag, group: Row -> Row, sequence: nat)
    requires Ordered(entries, sequence) && Unique(entries, group)
    ensures Ordered(ReplaceRows(entries, out, group), sequence) && Unique(ReplaceRows(entries, out, group), group)
    ensures forall g :: HasKey(ReplaceRows(entries, out, group), group, g) <==> HasKey(entries, group, g)
  {
    var next := ReplaceRows(entries, out, group);
    assert forall i | 0 <= i < |entries| :: next[i].id == entries[i].id && group(next[i].row) == group(entries[i].row);
  }

  lemma ReplacedRow(entries: seq<Entry>, out: Bag, group: Row -> Row, r: Row)
    requires Unique(entries, group)
    ensures r in EntryRows(ReplaceRows(entries, out, group)) <==>
      if !Swaps(out, group, r) then r in EntryRows(entries)
      else HasKey(entries, group, group(r)) && r == FirstGiven(out, group, group(r))
  {
    var next := ReplaceRows(entries, out, group);
    if r in EntryRows(next) {
      var i :| 0 <= i < |next| && EntryRows(next)[i] == r;
      assert next[i] == Replaced(entries[i], out, group) && EntryRows(entries)[i] == entries[i].row;
    }
    if Swaps(out, group, r) && HasKey(entries, group, group(r)) && r == FirstGiven(out, group, group(r)) {
      var i :| 0 <= i < |entries| && group(entries[i].row) == group(r);
      assert EntryRows(next)[i] == r;
    }
    if !Swaps(out, group, r) && r in EntryRows(entries) {
      var i :| 0 <= i < |entries| && EntryRows(entries)[i] == r;
      assert EntryRows(next)[i] == r;
    }
  }

  lemma KeptRow(entries: seq<Entry>, p: Row -> bool, r: Row)
    ensures r in EntryRows(Keep(entries, p)) <==> r in EntryRows(entries) && p(r)
  {
    var kept := Keep(entries, p);
    if r in EntryRows(kept) {
      var i :| 0 <= i < |kept| && EntryRows(kept)[i] == r;
      assert kept[i] in entries;
      var j :| 0 <= j < |entries| && entries[j] == kept[i];
      assert EntryRows(entries)[j] == r;
    }
    if r in EntryRows(entries) && p(r) {
      var i :| 0 <= i < |entries| && EntryRows(entries)[i] == r;
      assert entries[i] in kept;
      var j :| 0 <= j < |kept| && kept[j] == entries[i];
      assert EntryRows(kept)[j] == r;
    }
  }

  lemma KeptKey(entries: seq<Entry>, group: Row -> Row, p: Row -> bool, g: Row)
    requires forall x, y | group(x) == group(y) :: p(x) == p(y)
    ensures HasKey(Keep(entries, p), group, g) <==> exists i ::
              0 <= i < |entries| && group(entries[i].row) == g && p(entries[i].row)
  {
    var kept := Keep(entries, p);
    if HasKey(kept, group, g) {
      var i :| 0 <= i < |kept| && group(kept[i].row) == g;
      assert kept[i] in entries;
    }
    if i :| 0 <= i < |entries| && group(entries[i].row) == g && p(entries[i].row) {
      assert entries[i] in kept;
    }
  }

  /** INSERT of the groups not stored: their rows arrive, once. */
  lemma {:induction false} AddRowsAdds(t: Table, stored: seq<Entry>, out: Bag, group: Row -> Row, r: Row)
    requires Ordered(t.entries, t.sequence)
    ensures Ordered(AddRows(t, stored, out, group).entries, AddRows(t, stored, out, group).sequence)
    ensures r in EntryRows(AddRows(t, stored, out, group).entries) <==>
      r in EntryRows(t.entries) || (Given(out, r) && !HasKey(stored, group, group(r)))
    ensures forall e | e in t.entries :: e in AddRows(t, stored, out, group).entries
    decreases out
  {
    if out != [] {
      var row := out[0].row;
      var adds := out[0].m > 0 && !HasKey(stored, group, group(row));
      var u := if adds then Copies(t, row, 1) else t;
      if adds {
        CopiesAdd(t, row, 1, r);
        assert Copies(u, row, 0) == u;
        assert u.entries == t.entries + [Entry(t.sequence + 1, row)];
        assert EntryRows(u.entries) == EntryRows(t.entries) + [row];
      }
      AddRowsAdds(u, stored, out[1..], group, r);
      GivenCons(out, r);
    }
  }

  predicate Given(out: Bag, r: Row) {
    exists i :: 0 <= i < |out| && out[i].m > 0 && out[i].row == r
  }

  lemma GivenCons(out: Bag, r: Row)
    requires out != []
    ensures Given(out, r) <==> (out[0].m > 0 && out[0].row == r) || Given(out[1..], r)
  {
    if i :| 0 <= i < |out| && out[i].m > 0 && out[i].row == r {
      if i > 0 { assert out[1..][i - 1] == out[i]; }
    }
    if i :| 0 <= i < |out[1..]| && out[1..][i].m > 0 && out[1..][i].row == r {
      assert out[i + 1] == out[1..][i];
    }
  }

  lemma {:induction false} AddRowsUnique(t: Table, stored: seq<Entry>, out: Bag, group: Row -> Row)
    requires Unique(t.entries, group) && GroupDelta(out, group)
    requires forall i | 0 <= i < |out| && out[i].m > 0 && !HasKey(stored, group, group(out[i].row)) ::
               !HasKey(t.entries, group, group(out[i].row))
    ensures Unique(AddRows(t, stored, out, group).entries, group)
    decreases out
  {
    if out != [] {
      var row := out[0].row;
      var adds := out[0].m > 0 && !HasKey(stored, group, group(row));
      var u := if adds then Copies(t, row, 1) else t;
      if adds {
        assert Copies(u, row, 0) == u;
        assert u.entries == t.entries + [Entry(t.sequence + 1, row)];
      }
      assert GroupDelta(out[1..], group) by {
        assert forall i | 0 <= i < |out[1..]| :: out[1..][i] == out[i + 1];
      }
      forall i | 0 <= i < |out[1..]| && out[1..][i].m > 0 && !HasKey(stored, group, group(out[1..][i].row))
        ensures !HasKey(u.entries, group, group(out[1..][i].row))
      {
        assert out[1..][i] == out[i + 1];
        assert !HasKey(t.entries, group, group(out[i + 1].row));
      }
      AddRowsUnique(u, stored, out[1..], group);
    }
  }

  // ------------------------------------------------------------ in place: meaning

  function InPlace(t: Table, out: Bag, group: Row -> Row): Table {
    var kept := DropRows(ReplaceRows(t.entries, out, group), out, group);
    AddRows(Table(kept, t.sequence), kept, out, group)
  }

  /** Each retracted row is the stored row of its group, and a group that only
      receives a row has none stored. */
  ghost predicate FitsStored(entries: seq<Entry>, out: Bag, group: Row -> Row) {
    && (forall i | 0 <= i < |out| && out[i].m < 0 :: out[i].row in EntryRows(entries))
    && (forall i | 0 <= i < |out| && out[i].m > 0 && !Takes(out, group, group(out[i].row)) ::
         !HasKey(entries, group, group(out[i].row)))
  }

  /** Every group that loses a row is stored. */
  ghost predicate GroupsStored(entries: seq<Entry>, out: Bag, group: Row -> Row) {
    forall i | 0 <= i < |out| && out[i].m < 0 :: HasKey(entries, group, group(out[i].row))
  }

  /** At most one row per group, once. */
  ghost predicate Singular(s: Bag, group: Row -> Row) {
    && (forall x :: 0 <= Net(s, x) <= 1)
    && (forall x, y | Net(s, x) == 1 && Net(s, y) == 1 && group(x) == group(y) :: x == y)
  }

  /** The first write of such rows leaves one stored row per group. */
  lemma {:induction false} ExtendUnique(t: Table, out: Bag, group: Row -> Row)
    requires Positive(out) && Singular(out, group) && Unique(t.entries, group)
    requires forall i | 0 <= i < |out| :: !HasKey(t.entries, group, group(out[i].row))
    ensures Unique(Extend(t, out).entries, group)
    decreases out
  {
    if out != [] {
      var row, rest := out[0].row, out[1..];
      SingularHead(out, group);
      assert out[0].m == 1 && Copies(t, row, 1).entries == t.entries + [Entry(t.sequence + 1, row)];
      forall i | 0 <= i < |rest| ensures !HasKey(Copies(t, row, 1).entries, group, group(rest[i].row)) {
        assert rest[i] == out[i + 1] && group(rest[i].row) != group(row);
      }
      ExtendUnique(Copies(t, row, 1), rest, group);
    }
  }

  lemma SingularHead(out: Bag, group: Row -> Row)
    requires out != [] && Positive(out) && Singular(out, group)
    ensures out[0].m == 1 && Singular(out[1..], group)
    ensures forall i | 0 <= i < |out[1..]| :: group(out[1..][i].row) != group(out[0].row)
  {
    var row, rest := out[0].row, out[1..];
    NetPositive(rest, row);
    assert Net(out, row) == out[0].m + Net(rest, row);
    forall x ensures Net(rest, x) == if x == row then 0 else Net(out, x) {}
    forall i | 0 <= i < |rest| ensures group(rest[i].row) != group(row) {
      assert RowsOf(rest)[i] == rest[i].row;
      NetPositive(rest, rest[i].row);
      assert Net(out, row) == 1 && Net(out, rest[i].row) == Net(rest, rest[i].row) == 1;
    }
  }

  predicate Taken(out: Bag, r: Row) {
    exists i :: 0 <= i < |out| && out[i].m < 0 && out[i].row == r
  }

  lemma {:induction false} GroupDeltaNet(out: Bag, group: Row -> Row, r: Row)
    requires GroupDelta(out, group)
    ensures Net(out, r) == (if Given(out, r) then 1 else 0) - (if Taken(out, r) then 1 else 0)
  {
    if out != [] {
      assert forall i | 0 <= i < |out[1..]| :: out[1..][i] == out[i + 1];
      assert GroupDelta(out[1..], group);
      GroupDeltaNet(out[1..], group, r);
      GivenCons(out, r);
      if i :| 0 <= i < |out| && out[i].m < 0 && out[i].row == r {
        if i > 0 { assert out[1..][i - 1] == out[i]; }
      }
    }
  }

  /** With one row given per group, that row is the one the subquery finds. */
  lemma GivenIsFirst(out: Bag, group: Row -> Row, r: Row)
    requires GroupDelta(out, group)
    ensures Given(out, r) <==> Gives(out, group, group(r)) && FirstGiven(out, group, group(r)) == r
  {
  }

  /** Which row a group shows after the update in place. */
  lemma InPlaceRow(t: Table, out: Bag, group: Row -> Row, r: Row)
    requires Ordered(t.entries, t.sequence) && Unique(t.entries, group) && GroupDelta(out, group)
    ensures Unique(InPlace(t, out, group).entries, group)
    ensures Ordered(InPlace(t, out, group).entries, InPlace(t, out, group).sequence)
    ensures r in EntryRows(InPlace(t, out, group).entries) <==>
      if Takes(out, group, group(r)) || !HasKey(t.entries, group, group(r)) then Given(out, r)
      else r in EntryRows(t.entries)
  {
    var replaced := ReplaceRows(t.entries, out, group);
    var kept := DropRows(replaced, out, group);
    ReplaceKeeps(t.entries, out, group, t.sequence);
    KeepValid(replaced, t.sequence, group, x => !Takes(out, group, group(x)) || Gives(out, group, group(x)));
    AddRowsAdds(Table(kept, t.sequence), kept, out, group, r);
    AddRowsUnique(Table(kept, t.sequence), kept, out, group);
    KeptRow(replaced, x => !Takes(out, group, group(x)) || Gives(out, group, group(x)), r);
    KeptKey(replaced, group, x => !Takes(out, group, group(x)) || Gives(out, group, group(x)), group(r));
    ReplacedRow(t.entries, out, group, r);
    GivenIsFirst(out, group, r);
    if r in EntryRows(t.entries) { RowHasKey(t.entries, group, r); }
    InPlaceCases(t.entries, replaced, out, group, r);
  }

  lemma InPlaceCases(entries: seq<Entry>, replaced: seq<Entry>, out: Bag, group: Row -> Row, r: Row)
    requires replaced == ReplaceRows(entries, out, group)
    ensures (exists i :: 0 <= i < |replaced| && group(replaced[i].row) == group(r) &&
              (!Takes(out, group, group(replaced[i].row)) || Gives(out, group, group(replaced[i].row)))) <==>
            HasKey(entries, group, group(r)) && (!Takes(out, group, group(r)) || Gives(out, group, group(r)))
  {
    assert forall i | 0 <= i < |entries| ::
             replaced[i] == Replaced(entries[i], out, group) && group(replaced[i].row) == group(entries[i].row);
  }

  /** Updating in place applies the delta exactly when it fits the stored rows. */
  lemma InPlaceExact(t: Table, out: Bag, group: Row -> Row)
    requires Ordered(t.entries, t.sequence) && Unique(t.entries, group) && GroupDelta(out, group)
    ensures (forall r :: Net(Stored(InPlace(t, out, group).entries), r) == Net(Stored(t.entries), r) + Net(out, r)) <==>
            FitsStored(t.entries, out, group)
  {
    var next := InPlace(t, out, group).entries;
    if FitsStored(t.entries, out, group) {
      forall r ensures Net(Stored(next), r) == Net(Stored(t.entries), r) + Net(out, r) {
        InPlaceNets(t, out, group, r);
        FitsAt(t.entries, out, group, r);
      }
    } else if i :| 0 <= i < |out| && out[i].m < 0 && out[i].row !in EntryRows(t.entries) {
      InPlaceNets(t, out, group, out[i].row);
      assert Taken(out, out[i].row) && Takes(out, group, group(out[i].row));
    } else {
      var i :| 0 <= i < |out| && out[i].m > 0 && !Takes(out, group, group(out[i].row))
               && HasKey(t.entries, group, group(out[i].row));
      var r := out[i].row;
      InPlaceNets(t, out, group, r);
      assert Given(out, r);
      if Taken(out, r) {
        assert Takes(out, group, group(r));
      }
    }
  }

  lemma InPlaceNets(t: Table, out: Bag, group: Row -> Row, r: Row)
    requires Ordered(t.entries, t.sequence) && Unique(t.entries, group) && GroupDelta(out, group)
    ensures Net(Stored(t.entries), r) == if r in EntryRows(t.entries) then 1 else 0
    ensures
      var given := if Given(out, r) then 1 else 0;
      Net(Stored(InPlace(t, out, group).entries), r) ==
        (if Takes(out, group, group(r)) || !HasKey(t.entries, group, group(r)) then given
         else if r in EntryRows(t.entries) then 1 else 0)
    ensures Net(out, r) == (if Given(out, r) then 1 else 0) - (if Taken(out, r) then 1 else 0)
  {
    InPlaceRow(t, out, group, r);
    UniqueNet(t.entries, group, r);
    UniqueNet(InPlace(t, out, group).entries, group, r);
    GroupDeltaNet(out, group, r);
  }

  /** What fitting says of one row: it is taken exactly when its group loses a row
      and it is the stored one. */
  lemma FitsAt(entries: seq<Entry>, out: Bag, group: Row -> Row, r: Row)
    requires Unique(entries, group) && GroupDelta(out, group) && FitsStored(entries, out, group)
    ensures Takes(out, group, group(r)) ==> (Taken(out, r) <==> r in EntryRows(entries))
    ensures !Takes(out, group, group(r)) ==> !Taken(out, r) && (HasKey(entries, group, group(r)) ==> !Given(out, r))
    ensures r in EntryRows(entries) ==> HasKey(entries, group, group(r))
  {
    if r in EntryRows(entries) {
      RowHasKey(entries, group, r);
    }
    if Takes(out, group, group(r)) {
      var i :| 0 <= i < |out| && out[i].m < 0 && group(out[i].row) == group(r);
      assert out[i].row in EntryRows(entries);
      if r in EntryRows(entries) {
        SameGroupSameRow(entries, group, r, out[i].row);
      }
      if j :| 0 <= j < |out| && out[j].m < 0 && out[j].row == r {
        assert j == i;
      }
    }
  }

  lemma SameGroupSameRow(entries: seq<Entry>, group: Row -> Row, x: Row, y: Row)
    requires Unique(entries, group) && x in EntryRows(entries) && y in EntryRows(entries) && group(x) == group(y)
    ensures x == y
  {
    var i :| 0 <= i < |entries| && EntryRows(entries)[i] == x;
    var j :| 0 <= j < |entries| && EntryRows(entries)[j] == y;
    assert entries[i].row == x && entries[j].row == y;
  }

  /** Every group that is stored, and keeps or gets a row, keeps its rowid. */
  lemma SurvivorsKeepRowid(t: Table, out: Bag, group: Row -> Row, e: Entry)
    requires Ordered(t.entries, t.sequence) && Unique(t.entries, group) && e in t.entries
    requires !Takes(out, group, group(e.row)) || Gives(out, group, group(e.row))
    ensures exists next :: next in InPlace(t, out, group).entries && next.id == e.id && group(next.row) == group(e.row)
  {
    var replaced := ReplaceRows(t.entries, out, group);
    var i :| 0 <= i < |t.entries| && t.entries[i] == e;
    var next := replaced[i];
    assert next == Replaced(e, out, group);
    var kept := DropRows(replaced, out, group);
    assert next in kept;
    ReplaceKeeps(t.entries, out, group, t.sequence);
    KeepValid(replaced, t.sequence, group, x => !Takes(out, group, group(x)) || Gives(out, group, group(x)));
    AddRowsAdds(Table(kept, t.sequence), kept, out, group, next.row);
  }

  // ------------------------------------------------------- in place: the count check

  function GroupsOf(rows: seq<Row>, group: Row -> Row): seq<Row> {
    seq(|rows|, i requires 0 <= i < |rows| => group(rows[i]))
  }

  /** As many rows are replaced or deleted as there are retractions exactly when
      every group that loses a row is stored. */
  lemma InPlaceCount(entries: seq<Entry>, sequence: nat, out: Bag, group: Row -> Row)
    requires Ordered(entries, sequence) && Unique(entries, group) && GroupDelta(out, group)
    ensures |TakenRows(entries, out, group)| == Total(Retractions(out)) <==> GroupsStored(entries, out, group)
  {
    var lost := Weigh(GroupsOf(RowsOf(Retractions(out)), group), 1);
    var hit := TakenRows(entries, out, group);
    var found := Weigh(GroupsOf(EntryRows(hit), group), 1);
    RetractionGroups(out, group);
    TakenUnique(entries, sequence, out, group);
    forall g
      ensures Net(found, g) <= Net(lost, g)
      ensures (Net(found, g) == Net(lost, g) <==> (Takes(out, group, g) ==> HasKey(entries, group, g))) {
      NetWeigh(GroupsOf(RowsOf(Retractions(out)), group), 1, g);
      NetWeigh(GroupsOf(EntryRows(hit), group), 1, g);
      HitGroup(entries, out, group, g);
    }
    EqualTotals(lost, found);
    TotalWeigh(GroupsOf(RowsOf(Retractions(out)), group));
    TotalWeigh(GroupsOf(EntryRows(hit), group));
    if GroupsStored(entries, out, group) {
      assert Same(lost, found);
    }
    if Same(lost, found) {
      forall i | 0 <= i < |out| && out[i].m < 0 ensures HasKey(entries, group, group(out[i].row)) {
        assert Takes(out, group, group(out[i].row));
        assert Net(found, group(out[i].row)) == Net(lost, group(out[i].row));
      }
    }
  }

  lemma {:induction false} TotalWeigh(rows: seq<Row>)
    ensures Total(Weigh(rows, 1)) == |rows|
  {
    if rows != [] {
      TotalWeigh(rows[1..]);
      assert Weigh(rows, 1)[1..] == Weigh(rows[1..], 1);
    }
  }

  lemma {:induction false} RetractionGroups(out: Bag, group: Row -> Row)
    requires GroupDelta(out, group)
    ensures NoDuplicates(GroupsOf(RowsOf(Retractions(out)), group))
    ensures Total(Retractions(out)) == |Retractions(out)|
    ensures forall g :: g in GroupsOf(RowsOf(Retractions(out)), group) <==> Takes(out, group, g)
  {
    if out != [] {
      TailGroupDelta(out, group);
      RetractionGroups(out[1..], group);
      TakesCons(out, group);
      RetractionGroupsCons(out, group);
      if out[0].m < 0 {
        assert Retractions(out)[1..] == Retractions(out[1..]);
        NoDuplicatesCons(group(out[0].row), GroupsOf(RowsOf(Retractions(out[1..])), group));
      }
    }
  }

  lemma RetractionGroupsCons(out: Bag, group: Row -> Row)
    requires out != []
    ensures out[0].m >= 0 ==> Retractions(out) == Retractions(out[1..])
    ensures out[0].m < 0 ==> Retractions(out) == [Weighted(out[0].row, -out[0].m)] + Retractions(out[1..])
    ensures out[0].m < 0 ==> GroupsOf(RowsOf(Retractions(out)), group) ==
                               [group(out[0].row)] + GroupsOf(RowsOf(Retractions(out[1..])), group)
  {
    var rest := Retractions(out[1..]);
    assert out[0].m >= 0 ==> Retractions(out) == [] + rest == rest;
    if out[0].m < 0 {
      GroupsOfCons(Weighted(out[0].row, -out[0].m), rest, group);
    }
  }

  lemma GroupsOfCons(w: Weighted, rest: Bag, group: Row -> Row)
    ensures GroupsOf(RowsOf([w] + rest), group) == [group(w.row)] + GroupsOf(RowsOf(rest), group)
  {
  }

  lemma TailGroupDelta(out: Bag, group: Row -> Row)
    requires GroupDelta(out, group) && out != []
    ensures GroupDelta(out[1..], group)
    ensures out[0].m < 0 ==> out[0].m == -1 && !Takes(out[1..], group, group(out[0].row))
  {
    assert forall i | 0 <= i < |out[1..]| :: out[1..][i] == out[i + 1];
  }

  lemma TakesCons(out: Bag, group: Row -> Row)
    requires out != []
    ensures forall g :: Takes(out, group, g) <==> (out[0].m < 0 && group(out[0].row) == g) || Takes(out[1..], group, g)
  {
    forall g ensures Takes(out, group, g) <==> (out[0].m < 0 && group(out[0].row) == g) || Takes(out[1..], group, g) {
      if i :| 0 <= i < |out| && out[i].m < 0 && group(out[i].row) == g {
        if i > 0 { assert out[1..][i - 1] == out[i]; }
      }
      if i :| 0 <= i < |out[1..]| && out[1..][i].m < 0 && group(out[1..][i].row) == g {
        assert out[i + 1] == out[1..][i];
      }
    }
  }

  lemma TakenUnique(entries: seq<Entry>, sequence: nat, out: Bag, group: Row -> Row)
    requires Ordered(entries, sequence) && Unique(entries, group)
    ensures NoDuplicates(GroupsOf(EntryRows(TakenRows(entries, out, group)), group))
  {
    KeepValid(entries, sequence, group, x => Takes(out, group, group(x)));
  }

  lemma HitGroup(entries: seq<Entry>, out: Bag, group: Row -> Row, g: Row)
    ensures g in GroupsOf(EntryRows(TakenRows(entries, out, group)), group) <==>
              Takes(out, group, g) && HasKey(entries, group, g)
  {
    var hit := TakenRows(entries, out, group);
    var groups := GroupsOf(EntryRows(hit), group);
    if g in groups {
      var i :| 0 <= i < |groups| && groups[i] == g;
      assert hit[i] in entries && Takes(out, group, group(hit[i].row));
    }
    if Takes(out, group, g) && HasKey(entries, group, g) {
      var i :| 0 <= i < |entries| && group(entries[i].row) == g;
      assert entries[i] in hit;
      var j :| 0 <= j < |hit| && hit[j] == entries[i];
      assert groups[j] == g;
    }
  }

  /** Rows an UPDATE replaces and a DELETE removes are together the rows of the
      groups that lose one. */
  function Swapped(entries: seq<Entry>, out: Bag, group: Row -> Row): seq<Entry> {
    Keep(entries, x => Swaps(out, group, x))
  }

  lemma {:induction false} ReplacedPlusDropped(entries: seq<Entry>, out: Bag, group: Row -> Row)
    ensures |Swapped(entries, out, group)| + |entries| - |DropRows(ReplaceRows(entries, out, group), out, group)| ==
              |TakenRows(entries, out, group)|
  {
    if entries != [] {
      ReplacedPlusDropped(entries[1..], out, group);
      assert ReplaceRows(entries, out, group)[1..] == ReplaceRows(entries[1..], out, group);
    }
  }

  // ----------------------------------------------------------------- the operation

  /** The stored result of a view. `inPlace` holds for a plain group output that
      shows its keys; `group` reads them off a stored row. */
  class ResultTable {
    const inPlace: bool
    const group: Row -> Row
    var rows: Table

    constructor (inPlace: bool, group: Row -> Row)
      ensures Valid() && Contents() == [] && this.inPlace == inPlace && this.group == group
    {
      this.inPlace, this.group := inPlace, group;
      rows := Table([], 0);
    }

    ghost predicate Valid()
      reads this
    {
      Ordered(rows.entries, rows.sequence) && (inPlace ==> Unique(rows.entries, group))
    }

    function Contents(): Bag
      reads this
    {
      Stored(rows.entries)
    }

    /** Retractions delete that many copies, additions insert that many. */
    method ApplyCopies(out: Bag) returns (ok: bool)
      requires Valid() && !inPlace
      modifies this`rows
      ensures Valid()
      ensures ok <==> Covered(old(rows).entries, Retractions(out)) && WithinPeak(out)
      ensures ok ==> forall r :: Net(Contents(), r) == Net(old(Contents()), r) + Net(out, r)
    {
      var retractions := Retractions(out);
      var wanted := Total(retractions);
      var kept := Retract([], rows.entries, retractions);
      var removed := |rows.entries| - |kept|;
      RetractCount(rows.entries, retractions);
      RetractOrdered([], rows.entries, retractions, rows.sequence);
      ghost var before := rows;
      rows := Table(kept, rows.sequence);
      if removed != wanted || !WithinPeak(out) {
        return false;
      }
      CopiesApplied(before, out);
      rows := Extend(rows, out);
      return true;
    }

    /** The first write of the result, as many copies as each row says. */
    method Write(out: Bag) returns (ok: bool)
      requires Valid() && Contents() == [] && Positive(out) && (inPlace ==> Singular(out, group))
      modifies this`rows
      ensures Valid()
      ensures ok <==> WithinPeak(out)
      ensures ok ==> Same(Contents(), out)
    {
      if !WithinPeak(out) {
        return false;
      }
      if inPlace {
        ExtendUnique(rows, out, group);
      }
      forall r ensures Net(Stored(Extend(rows, out).entries), r) == Net(out, r) {
        ExtendAdds(rows, out, r);
        NothingRetracted(out);
        NetParts(out, r);
      }
      ExtendAdds(rows, out, []);
      rows := Extend(rows, out);
      return true;
    }

    /** One stored row per group is updated where it stands. */
    method ApplyInPlace(out: Bag) returns (ok: bool)
      requires Valid() && inPlace && GroupDelta(out, group)
      modifies this`rows
      ensures ok ==> Valid()
      ensures ok <==> GroupsStored(old(rows).entries, out, group)
      ensures ok ==> rows == InPlace(old(rows), out, group)
    {
      var wanted := Total(Retractions(out));
      var replaced := |Swapped(rows.entries, out, group)|;
      ReplacedPlusDropped(rows.entries, out, group);
      InPlaceCount(rows.entries, rows.sequence, out, group);
      ghost var before := rows;
      rows := Table(ReplaceRows(rows.entries, out, group), rows.sequence);
      var kept := DropRows(rows.entries, out, group);
      var removed := replaced + |rows.entries| - |kept|;
      rows := Table(kept, rows.sequence);
      if removed != wanted {
        return false;
      }
      InPlaceRow(before, out, group, []);
      rows := AddRows(rows, kept, out, group);
      return true;
    }
  }
}

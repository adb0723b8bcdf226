/** A group output that shows its keys: the stored rows are the before image of
    its touched groups, COUNT and SUM are kept by adding to them, and its deltas
    are applied in place. */
module GroupOutput {
  import opened Rows
  import opened Bags
  import opened Tables
  import opened Plans
  import opened Locality
  import opened Meaning
  import opened ApplyState
  import Aggregate

  /** The rows of one group. */
  function RowsOfGroup(kind: Kind, s: Bag, k: Row): seq<Row>
    requires kind.Group?
  {
    kind.aggregate(Contents(if kind.keyless then s else Restrict(s, x => kind.key(x) == k)))
  }

  /** `group` reads the grouping key off every row of a group, and a plain group has
      at most one row. */
  ghost predicate ShowsKeys(kind: Kind, group: Row -> Row)
    requires kind.Group?
  {
    forall k, s :: ShowsKey(kind, group, k, s)
  }

  ghost predicate ShowsKey(kind: Kind, group: Row -> Row, k: Row, s: Bag)
    requires kind.Group?
  {
    var rows := RowsOfGroup(kind, s, k);
    && (forall i | 0 <= i < |rows| :: group(rows[i]) == if kind.keyless then [] else k)
    && (kind.expansion.Plain? ==> |rows| <= 1)
  }

  /** A plain group with at most one row per key, which shows it. */
  ghost predicate Plainly(kind: Kind, group: Row -> Row) {
    kind.Group? && kind.expansion.Plain? && ShowsKeys(kind, group)
  }

  /** `sums` says what the group computes: its key, count and sums, shown in one row
      from which they can be read back. */
  ghost predicate Computes(kind: Kind, sums: Sums)
    requires kind.Group?
  {
    && sums.query.keyless == kind.keyless && (forall x :: sums.query.key(x) == kind.key(x))
    && (forall k, g: Aggregate.Group | |g.sums| == |sums.query.values| :: sums.read(sums.show(k, g)) == g)
    && (forall k, s | Positive(s) && (kind.keyless ==> k == []) :: ShowsSums(kind, sums, k, s))
  }

  ghost predicate ShowsSums(kind: Kind, sums: Sums, k: Row, s: Bag)
    requires kind.Group?
  {
    RowsOfGroup(kind, s, k) ==
    if Aggregate.Shows(sums.query, s, k) then [sums.show(k, Aggregate.Fresh(sums.query, s, k))] else []
  }

  /** The plan's marks describe its output group. */
  ghost predicate OutputOk(plan: Plan)
    requires ValidPlan(plan)
  {
    && (plan.shown.Some? ==> ShowsKeys(OutputKind(plan), plan.shown.value))
    && (plan.sums.Some? ==> Computes(OutputKind(plan), plan.sums.value))
  }

  /** `apply_state` works in place for a plain group. */
  predicate AppliesInPlace(plan: Plan)
    requires ValidPlan(plan)
  {
    plan.shown.Some? && OutputKind(plan).expansion.Plain?
  }

  lemma NetSingle(rows: seq<Row>, r: Row)
    requires |rows| <= 1
    ensures Net(Weigh(rows, 1), r) == if rows == [r] then 1 else 0
  {
    if rows != [] {
      assert Weigh(rows, 1)[1..] == [];
    }
  }

  /** A shown row is one of its own group's. */
  lemma {:induction false} GroupsOfNet(kind: Kind, group: Row -> Row, s: Bag, keys: seq<Row>, r: Row)
    requires kind.Group? && !kind.keyless && ShowsKeys(kind, group) && NoDuplicates(keys)
    ensures Net(Plans.GroupsOf(kind, s, keys), r) ==
              if group(r) in keys then Net(GroupRows(kind, s, group(r)), r) else 0
  {
    if keys != [] {
      var k := keys[0];
      assert ShowsKey(kind, group, k, s);
      NetAppend(GroupRows(kind, s, k), Plans.GroupsOf(kind, s, keys[1..]), r);
      GroupsOfNet(kind, group, s, keys[1..], r);
      if group(r) != k {
        assert r !in RowsOf(Weigh(RowsOfGroup(kind, s, k), 1));
        NetAbsent(Weigh(RowsOfGroup(kind, s, k), 1), r);
      }
      assert keys == [k] + keys[1..];
    }
  }

  /** What the node shows of a row: what the row's own group has of it. */
  lemma GroupNet(kind: Kind, group: Row -> Row, s: Bag, r: Row)
    requires kind.Group? && ShowsKeys(kind, group)
    ensures Net(EvalGroup(kind, s), r) ==
      if kind.keyless || group(r) in GroupKeys(kind, s) then Net(Weigh(RowsOfGroup(kind, s, group(r)), 1), r) else 0
    ensures kind.keyless && group(r) != [] ==> Net(EvalGroup(kind, s), r) == 0
  {
    if kind.keyless {
      assert ShowsKey(kind, group, [], s);
      if group(r) != [] {
        NetAbsent(EvalGroup(kind, s), r);
      }
    } else {
      GroupsOfNet(kind, group, s, GroupKeys(kind, s), r);
    }
  }

  /** The value of a plain group node has one row per group. */
  lemma GroupSingular(kind: Kind, group: Row -> Row, s: Bag)
    requires Plainly(kind, group)
    ensures Singular(EvalGroup(kind, s), group)
  {
    var t := EvalGroup(kind, s);
    forall x ensures 0 <= Net(t, x) <= 1 && (Net(t, x) == 1 ==> RowsOfGroup(kind, s, group(x)) == [x]) {
      assert ShowsKey(kind, group, group(x), s);
      GroupNet(kind, group, s, x);
      NetSingle(RowsOfGroup(kind, s, group(x)), x);
    }
  }

  lemma SingularSame(s: Bag, t: Bag, group: Row -> Row)
    requires Same(s, t) && Singular(s, group)
    ensures Singular(t, group)
  {
    forall x ensures Net(t, x) == Net(s, x) {}
  }

  // ------------------------------------------------------------- the before image


  /** The stored rows of the touched groups are those groups' rows. */
  lemma TouchedRows(kind: Kind, group: Row -> Row, s: Bag, keys: set<Row>)
    requires kind.Group? && ShowsKeys(kind, group) && (kind.keyless ==> [] in keys)
    ensures Same(Restrict(EvalGroup(kind, s), x => group(x) in keys), EvalGroup(kind, RestrictTo(kind, 0, s, keys)))
  {
    var part := RestrictTo(kind, 0, s, keys);
    forall r
      ensures Net(Restrict(EvalGroup(kind, s), x => group(x) in keys), r) == Net(EvalGroup(kind, part), r)
    {
      NetRestrict(EvalGroup(kind, s), x => group(x) in keys, r);
      GroupNet(kind, group, s, r);
      GroupNet(kind, group, part, r);
      if kind.keyless {
        KeepsAll(s, x => KeyOf(kind, 0, x) in keys);
      } else {
        KeysRestricted(kind, s, x => KeyOf(kind, 0, x) in keys, group(r), group(r) in keys);
        if group(r) in keys {
          GroupPartSame(kind, s, x => KeyOf(kind, 0, x) in keys, group(r));
        }
      }
    }
  }

  /** So are the stored rows, when they hold the node's value. */
  lemma StoredTouched(kind: Kind, group: Row -> Row, stored: Bag, s: Bag, keys: set<Row>)
    requires kind.Group? && ShowsKeys(kind, group) && (kind.keyless ==> [] in keys)
    requires Same(stored, EvalGroup(kind, s))
    ensures Same(Restrict(stored, x => group(x) in keys), EvalGroup(kind, RestrictTo(kind, 0, s, keys)))
  {
    TouchedRows(kind, group, s, keys);
    RestrictSame(stored, EvalGroup(kind, s), x => group(x) in keys);
  }

  // ---------------------------------------------------------------- COUNT and SUM

  /** Keys, counts and sums read off result rows. */
  function ReadGroups(rows: Bag, group: Row -> Row, read: Row -> Aggregate.Group): map<Row, Aggregate.Group> {
    if rows == [] then map[] else ReadGroups(rows[1..], group, read)[group(rows[0].row) := read(rows[0].row)]
  }

  lemma {:induction false} ReadAt(rows: Bag, group: Row -> Row, read: Row -> Aggregate.Group, k: Row)
    ensures k in ReadGroups(rows, group, read) <==> exists x :: x in RowsOf(rows) && group(x) == k
    ensures k in ReadGroups(rows, group, read) ==>
              exists x :: x in RowsOf(rows) && group(x) == k && ReadGroups(rows, group, read)[k] == read(x)
  {
    if rows != [] {
      ReadAt(rows[1..], group, read, k);
      assert RowsOf(rows) == [rows[0].row] + RowsOf(rows[1..]);
      assert rows[0].row in RowsOf(rows);
    }
  }

  /** Rows of groups, one for each group stored. */
  function ShowGroups(sums: Sums, stored: map<Row, Aggregate.Group>, keys: seq<Row>): seq<Row> {
    if keys == [] then []
    else (if keys[0] in stored then [sums.show(keys[0], stored[keys[0]])] else []) + ShowGroups(sums, stored, keys[1..])
  }

  ghost predicate IsShown(sums: Sums, stored: map<Row, Aggregate.Group>, k: Row, r: Row) {
    k in stored && r == sums.show(k, stored[k])
  }

  lemma {:induction false} ShowGroupsNet(sums: Sums, group: Row -> Row, stored: map<Row, Aggregate.Group>,
                                         keys: seq<Row>, r: Row)
    requires NoDuplicates(keys)
    requires forall k | k in keys && k in stored :: group(sums.show(k, stored[k])) == k
    ensures Net(Weigh(ShowGroups(sums, stored, keys), 1), r) ==
      if group(r) in keys && IsShown(sums, stored, group(r), r) then 1 else 0
  {
    if keys != [] {
      var k, rest := keys[0], ShowGroups(sums, stored, keys[1..]);
      var head := if k in stored then [sums.show(k, stored[k])] else [];
      assert keys == [k] + keys[1..];
      ShowGroupsNet(sums, group, stored, keys[1..], r);
      assert Weigh(head + rest, 1) == Weigh(head, 1) + Weigh(rest, 1);
      NetAppend(Weigh(head, 1), Weigh(rest, 1), r);
      NetSingle(head, r);
    }
  }

  /** The node's row of a group, in terms of its count and sums. */
  lemma SumsNet(kind: Kind, group: Row -> Row, sums: Sums, s: Bag, r: Row)
    requires Plainly(kind, group) && Computes(kind, sums) && Positive(s)
    ensures
      var q, k := sums.query, group(r);
      Net(EvalGroup(kind, s), r) ==
        if Aggregate.Shows(q, s, k) && r == sums.show(k, Aggregate.Fresh(q, s, k)) then 1 else 0
  {
    var k := group(r);
    GroupNet(kind, group, s, r);
    if !kind.keyless || k == [] {
      assert ShowsSums(kind, sums, k, s);
      NetSingle(RowsOfGroup(kind, s, k), r);
      if !kind.keyless && k !in GroupKeys(kind, s) {
        AbsentKey(kind, sums, s, k);
      }
    }
  }

  lemma AbsentKey(kind: Kind, sums: Sums, s: Bag, k: Row)
    requires kind.Group? && !kind.keyless && Computes(kind, sums) && k !in GroupKeys(kind, s)
    ensures !Aggregate.Shows(sums.query, s, k)
  {
    GroupKeysSpec(kind, s, k);
    Aggregate.UntouchedGroup(sums.query, s, k);
  }

  /** A shown group shows its own key. */
  lemma ShownKey(kind: Kind, group: Row -> Row, sums: Sums, s: Bag, k: Row)
    requires Plainly(kind, group) && Computes(kind, sums) && Positive(s) && Aggregate.Shows(sums.query, s, k)
    ensures group(sums.show(k, Aggregate.Fresh(sums.query, s, k))) == k
  {
    assert ShowsSums(kind, sums, k, s) && ShowsKey(kind, group, k, s);
    assert RowsOfGroup(kind, s, k)[0] == sums.show(k, Aggregate.Fresh(sums.query, s, k));
  }

  /** The before image gives the counts and sums stored of the touched groups. */
  lemma ReadIsStored(kind: Kind, group: Row -> Row, sums: Sums, s: Bag, keys: set<Row>, parked: Bag)
    requires Plainly(kind, group) && Computes(kind, sums) && Positive(s) && Positive(parked)
    requires Same(parked, Restrict(EvalGroup(kind, s), x => group(x) in keys))
    ensures Aggregate.StoredOf(sums.query, ReadGroups(parked, group, sums.read), s, keys)
  {
    var q, stored := sums.query, ReadGroups(parked, group, sums.read);
    forall k | k in keys ensures Aggregate.StoredAt(q, stored, s, k) {
      ReadAt(parked, group, sums.read, k);
      forall x | group(x) == k
        ensures x in RowsOf(parked) <==> Aggregate.Shows(q, s, k) && x == sums.show(k, Aggregate.Fresh(q, s, k))
      {
        NetPositive(parked, x);
        NetRestrict(EvalGroup(kind, s), x => group(x) in keys, x);
        SumsNet(kind, group, sums, s, x);
      }
      if Aggregate.Shows(q, s, k) {
        ShownKey(kind, group, sums, s, k);
      }
    }
  }

  /** And the counts and sums kept for the touched groups give their after image. */
  lemma ShownIsAfter(kind: Kind, group: Row -> Row, sums: Sums, stored: map<Row, Aggregate.Group>, s: Bag,
                     touched: seq<Row>, keys: set<Row>)
    requires Plainly(kind, group) && Computes(kind, sums) && Positive(s)
    requires Aggregate.StoredOf(sums.query, stored, s, keys)
    requires NoDuplicates(touched) && forall k :: k in touched <==> k in keys
    ensures Same(Weigh(ShowGroups(sums, stored, touched), 1), Restrict(EvalGroup(kind, s), x => group(x) in keys))
  {
    var q := sums.query;
    forall k | k in touched && k in stored ensures group(sums.show(k, stored[k])) == k {
      assert Aggregate.StoredAt(q, stored, s, k);
      ShownKey(kind, group, sums, s, k);
    }
    forall r ensures Net(Weigh(ShowGroups(sums, stored, touched), 1), r) ==
                       Net(Restrict(EvalGroup(kind, s), x => group(x) in keys), r) {
      ShowGroupsNet(sums, group, stored, touched, r);
      NetRestrict(EvalGroup(kind, s), x => group(x) in keys, r);
      SumsNet(kind, group, sums, s, r);
      if group(r) in keys {
        assert Aggregate.StoredAt(q, stored, s, group(r));
      }
    }
  }

  /** The touched keys of the arrangement are the groups the sums touch. */
  lemma TouchedAgree(kind: Kind, sums: Sums, d: seq<Bag>)
    requires kind.Group? && Computes(kind, sums) && |d| == 1
    ensures TouchedKeys(kind, d) == Aggregate.Touched(sums.query, d[0])
    ensures forall k :: k in KeysIn(kind, d[0]) <==> k in TouchedKeys(kind, d)
  {
    var q, s := sums.query, d[0];
    forall x ensures KeyOf(kind, 0, x) == Aggregate.KeyOf(q, x) {}
    forall k ensures k in TouchedKeys(kind, d) <==> k in Aggregate.Touched(q, s) {
      if i :| 0 <= i < |s| && Aggregate.KeyOf(q, s[i].row) == k {
        assert KeyOf(kind, 0, d[0][i].row) == k;
      }
    }
    var keys := seq(|s|, i requires 0 <= i < |s| => KeyOf(kind, 0, s[i].row));
    forall k ensures k in KeysIn(kind, s) <==> k in Aggregate.Touched(q, s) {
      if i :| 0 <= i < |s| && Aggregate.KeyOf(q, s[i].row) == k {
        assert keys[i] == k;
      }
    }
  }

  /** What the COUNT/SUM path finds stored, and what it leaves to be shown. */
  lemma SumsStored(kind: Kind, group: Row -> Row, sums: Sums, d: seq<Bag>, s: Bag, image: Bag)
    requires Plainly(kind, group) && Computes(kind, sums) && |d| == 1 && d[0] != [] && Positive(s)
    requires Same(image, EvalGroup(kind, RestrictTo(kind, 0, s, TouchedKeys(kind, d)))) && Positive(image)
    ensures Aggregate.StoredOf(sums.query, ReadGroups(image, group, sums.read), s, Aggregate.Touched(sums.query, d[0]))
  {
    TouchedKeyless(kind, d);
    TouchedRows(kind, group, s, TouchedKeys(kind, d));
    TouchedAgree(kind, sums, d);
    ReadIsStored(kind, group, sums, s, TouchedKeys(kind, d), image);
  }

  lemma SumsShown(kind: Kind, group: Row -> Row, sums: Sums, d: seq<Bag>, s: Bag, stored: map<Row, Aggregate.Group>)
    requires Plainly(kind, group) && Computes(kind, sums) && |d| == 1 && d[0] != [] && Positive(s)
    requires Aggregate.StoredOf(sums.query, stored, s, Aggregate.Touched(sums.query, d[0]))
    ensures Same(Weigh(ShowGroups(sums, stored, KeysIn(kind, d[0])), 1),
                 EvalGroup(kind, RestrictTo(kind, 0, s, TouchedKeys(kind, d))))
  {
    TouchedKeyless(kind, d);
    TouchedRows(kind, group, s, TouchedKeys(kind, d));
    TouchedAgree(kind, sums, d);
    ShownIsAfter(kind, group, sums, stored, s, KeysIn(kind, d[0]), TouchedKeys(kind, d));
  }

  /** Without GROUP BY any change touches the one group. */
  lemma TouchedKeyless(kind: Kind, d: seq<Bag>)
    requires kind.Group? && |d| == 1 && d[0] != []
    ensures kind.keyless ==> [] in TouchedKeys(kind, d)
  {
    assert kind.keyless ==> KeyOf(kind, 0, d[0][0].row) == [];
  }

  // -------------------------------------------------------------------- the delta

  lemma {:induction false} PartsRows(out: Bag, r: Row)
    ensures Net(Retractions(out), r) > 0 ==> exists i :: 0 <= i < |out| && out[i].row == r && out[i].m < 0
    ensures Net(Additions(out), r) > 0 ==> exists i :: 0 <= i < |out| && out[i].row == r && out[i].m > 0
  {
    if out != [] {
      PartsRows(out[1..], r);
      NetAppend(if out[0].m < 0 then [Weighted(out[0].row, -out[0].m)] else [], Retractions(out[1..]), r);
      NetAppend(if out[0].m > 0 then [out[0]] else [], Additions(out[1..]), r);
      assert forall i | 0 <= i < |out[1..]| :: out[1..][i] == out[i + 1];
      if Net(Retractions(out[1..]), r) > 0 {
        var i :| 0 <= i < |out[1..]| && out[1..][i].row == r && out[1..][i].m < 0;
        assert out[i + 1].row == r && out[i + 1].m < 0;
      }
      if Net(Additions(out[1..]), r) > 0 {
        var i :| 0 <= i < |out[1..]| && out[1..][i].row == r && out[1..][i].m > 0;
        assert out[i + 1].row == r && out[i + 1].m > 0;
      }
    }
  }

  /** A consolidated change of what is stored never retracts a row more often than it
      is stored. */
  lemma ConsolidatedCovers(entries: seq<Entry>, s: Bag, t: Bag, out: Bag)
    requires Same(Stored(entries), s) && Positive(t) && Consolidated(out) && IsDelta(out, s, t)
    ensures Covered(entries, Retractions(out))
  {
    forall r ensures Net(Retractions(out), r) <= Net(Stored(entries), r) {
      NetParts(out, r);
      PartsRows(out, r);
      NetPositive(t, r);
      NetPositive(Additions(out), r);
      NetStored(entries, r);
    }
  }

  /** The consolidated change between two values with one row per group takes at
      most one row from a group and gives it at most one, and takes what is stored. */
  lemma GroupChangeFits(entries: seq<Entry>, group: Row -> Row, s: Bag, t: Bag, out: Bag)
    requires Unique(entries, group) && Same(Stored(entries), s) && Singular(s, group) && Singular(t, group)
    requires Consolidated(out) && IsDelta(out, s, t)
    ensures GroupDelta(out, group) && FitsStored(entries, out, group) && GroupsStored(entries, out, group)
  {
    forall i | 0 <= i < |out| ensures
      && (out[i].m == 1 || out[i].m == -1)
      && (out[i].m == 1 <==> Net(t, out[i].row) == 1 && Net(s, out[i].row) == 0)
      && (out[i].m == -1 <==> Net(t, out[i].row) == 0 && Net(s, out[i].row) == 1)
    {
      assert 0 <= Net(s, out[i].row) <= 1 && 0 <= Net(t, out[i].row) <= 1;
    }
    forall i, j | 0 <= i < j < |out| && out[i].m == out[j].m ensures group(out[i].row) != group(out[j].row) {
      assert RowsOf(out)[i] == out[i].row && RowsOf(out)[j] == out[j].row;
    }
    forall i | 0 <= i < |out| && out[i].m < 0
      ensures out[i].row in EntryRows(entries) && HasKey(entries, group, group(out[i].row)) {
      UniqueNet(entries, group, out[i].row);
      RowHasKey(entries, group, out[i].row);
    }
    forall i | 0 <= i < |out| && out[i].m > 0 && !Takes(out, group, group(out[i].row))
      ensures !HasKey(entries, group, group(out[i].row)) {
      if e :| 0 <= e < |entries| && group(entries[e].row) == group(out[i].row) {
        StoredIsTaken(entries, group, s, t, out, i, e);
      }
    }
  }

  /** A group that gets a new row while one is stored loses the stored one. */
  lemma StoredIsTaken(entries: seq<Entry>, group: Row -> Row, s: Bag, t: Bag, out: Bag, i: nat, e: nat)
    requires Unique(entries, group) && Same(Stored(entries), s) && Singular(s, group) && Singular(t, group)
    requires Consolidated(out) && IsDelta(out, s, t)
    requires i < |out| && e < |entries| && group(entries[e].row) == group(out[i].row)
    requires Net(t, out[i].row) == 1 && Net(s, out[i].row) == 0
    ensures Takes(out, group, group(out[i].row))
  {
    var x := entries[e].row;
    assert EntryRows(entries)[e] == x;
    UniqueNet(entries, group, x);
    assert Net(s, x) == 1 && x != out[i].row;
    assert Net(t, x) == 0;
    assert Net(out, x) == -1;
    if x !in RowsOf(out) {
      NetAbsent(out, x);
    }
    var j :| 0 <= j < |out| && RowsOf(out)[j] == x;
    assert out[j].m == Net(out, out[j].row);
  }

  /** So the stored result of a group output goes from its old value to its new
      one, in place. */
  lemma GroupAppliesInPlace(kind: Kind, group: Row -> Row, t: Table, was: Bag, now: Bag, a: Bag, b: Bag, out: Bag)
    requires Plainly(kind, group) && Same(was, EvalGroup(kind, a)) && Same(now, EvalGroup(kind, b))
    requires Ordered(t.entries, t.sequence) && Unique(t.entries, group) && Same(Stored(t.entries), was)
    requires Consolidated(out) && IsDelta(out, was, now)
    ensures GroupDelta(out, group) && GroupsStored(t.entries, out, group)
    ensures Same(Stored(InPlace(t, out, group).entries), now)
  {
    GroupSingular(kind, group, a);
    GroupSingular(kind, group, b);
    SingularSame(EvalGroup(kind, a), was, group);
    SingularSame(EvalGroup(kind, b), now, group);
    GroupChangeFits(t.entries, group, was, now, out);
    InPlaceExact(t, out, group);
  }
}

/** Tables with an AUTOINCREMENT rowid and a UNIQUE index on a membership key.
    Rowids only grow, also across deletes; what `max(rowid)` reads may shrink. */
module Tables {
  import opened Rows

  datatype Entry = Entry(id: nat, row: Row)

  /** `sequence` is the largest rowid ever handed out. */
  datatype Table = Table(entries: seq<Entry>, sequence: nat)

  ghost predicate Ordered(entries: seq<Entry>, sequence: nat) {
    && (forall i | 0 <= i < |entries| :: 0 < entries[i].id <= sequence)
    && (forall i, j | 0 <= i < j < |entries| :: entries[i].id < entries[j].id)
  }

  ghost predicate Unique(entries: seq<Entry>, key: Row -> Row) {
    forall i, j | 0 <= i < j < |entries| :: key(entries[i].row) != key(entries[j].row)
  }

  ghost predicate Valid(t: Table, key: Row -> Row) {
    Ordered(t.entries, t.sequence) && Unique(t.entries, key)
  }

  predicate HasKey(entries: seq<Entry>, key: Row -> Row, k: Row) {
    exists i :: 0 <= i < |entries| && key(entries[i].row) == k
  }

  ghost predicate HasKeyBetween(entries: seq<Entry>, key: Row -> Row, lo: int, hi: int, k: Row) {
    exists i :: 0 <= i < |entries| && lo < entries[i].id <= hi && key(entries[i].row) == k
  }

  /** The keys stored. */
  ghost function Keys(t: Table, key: Row -> Row): iset<Row> {
    iset k | HasKey(t.entries, key, k)
  }

  /** The keys stored under rowids in (lo, hi]. */
  ghost function KeysBetween(t: Table, key: Row -> Row, lo: int, hi: int): iset<Row> {
    iset k | HasKeyBetween(t.entries, key, lo, hi, k)
  }

  predicate HasKeyOf(rows: seq<Row>, key: Row -> Row, k: Row) {
    exists i :: 0 <= i < |rows| && key(rows[i]) == k
  }

  ghost function KeysOf(rows: seq<Row>, key: Row -> Row): iset<Row> {
    iset k | HasKeyOf(rows, key, k)
  }

  ghost function RowSet(rows: seq<Row>): iset<Row> {
    iset r | r in rows
  }

  /** SELECT coalesce(max(rowid),0). */
  function MaxRowid(t: Table): nat {
    if t.entries == [] then 0 else t.entries[|t.entries| - 1].id
  }

  function EntryRows(entries: seq<Entry>): (rows: seq<Row>)
    ensures |rows| == |entries| && forall i | 0 <= i < |entries| :: rows[i] == entries[i].row
  {
    seq(|entries|, i requires 0 <= i < |entries| => entries[i].row)
  }

  /** Entries with a rowid in (lo, hi]. */
  function Range(entries: seq<Entry>, lo: int, hi: int): (range: seq<Entry>) {
    if entries == [] then []
    else (if lo < entries[0].id <= hi then [entries[0]] else []) + Range(entries[1..], lo, hi)
  }

  /** INSERT OR IGNORE of one row. */
  function InsertOrIgnore(t: Table, key: Row -> Row, row: Row): Table {
    if HasKey(t.entries, key, key(row)) then t
    else Table(t.entries + [Entry(t.sequence + 1, row)], t.sequence + 1)
  }

  /** INSERT OR IGNORE of a SELECT's rows. */
  function InsertAll(t: Table, key: Row -> Row, rows: seq<Row>): Table
    decreases rows
  {
    if rows == [] then t else InsertAll(InsertOrIgnore(t, key, rows[0]), key, rows[1..])
  }

  /** DELETE without a filter keeps the rowid sequence. */
  function Cleared(t: Table): Table {
    t.(entries := [])
  }

  /** `u` holds the entries of `t` and then newer ones. */
  ghost predicate Extends(t: Table, u: Table) {
    && t.sequence <= u.sequence
    && |t.entries| <= |u.entries|
    && u.entries[..|t.entries|] == t.entries
    && forall i | |t.entries| <= i < |u.entries| :: u.entries[i].id > t.sequence
  }

  lemma ExtendsTransitive(t: Table, u: Table, v: Table)
    requires Extends(t, u) && Extends(u, v)
    ensures Extends(t, v)
  {
    assert v.entries[..|t.entries|] == u.entries[..|t.entries|];
    forall i | |t.entries| <= i < |v.entries| ensures v.entries[i].id > t.sequence {
      if i < |u.entries| {
        assert v.entries[i] == v.entries[..|u.entries|][i];
      }
    }
  }

  lemma KeysGrow(t: Table, u: Table, key: Row -> Row)
    requires Extends(t, u)
    ensures Keys(t, key) <= Keys(u, key)
  {
    forall k | k in Keys(t, key) ensures k in Keys(u, key) {
      var i :| 0 <= i < |t.entries| && key(t.entries[i].row) == k;
      assert u.entries[i] == u.entries[..|t.entries|][i];
    }
  }

  /** Old ranges read the same after newer rows were added. */
  lemma KeysBetweenStable(t: Table, u: Table, key: Row -> Row, lo: int, hi: int)
    requires Extends(t, u) && hi <= t.sequence
    ensures KeysBetween(u, key, lo, hi) == KeysBetween(t, key, lo, hi)
    ensures forall k :: HasKeyBetween(u.entries, key, lo, hi, k) <==> HasKeyBetween(t.entries, key, lo, hi, k)
  {
    forall k ensures HasKeyBetween(u.entries, key, lo, hi, k) <==> HasKeyBetween(t.entries, key, lo, hi, k) {
      if HasKeyBetween(t.entries, key, lo, hi, k) {
        var i :| 0 <= i < |t.entries| && lo < t.entries[i].id <= hi && key(t.entries[i].row) == k;
        assert u.entries[i] == u.entries[..|t.entries|][i];
      }
      if HasKeyBetween(u.entries, key, lo, hi, k) {
        var i :| 0 <= i < |u.entries| && lo < u.entries[i].id <= hi && key(u.entries[i].row) == k;
        assert i < |t.entries|;
        assert u.entries[i] == u.entries[..|t.entries|][i];
      }
    }
  }

  lemma BetweenIsStored(t: Table, key: Row -> Row, lo: int, hi: int)
    ensures KeysBetween(t, key, lo, hi) <= Keys(t, key)
  {
    forall k | k in KeysBetween(t, key, lo, hi) ensures k in Keys(t, key) {
      var i :| 0 <= i < |t.entries| && lo < t.entries[i].id <= hi && key(t.entries[i].row) == k;
    }
  }

  lemma NewKeyIsNew(t: Table, u: Table, key: Row -> Row, i: nat)
    requires Valid(u, key) && Extends(t, u) && |t.entries| <= i < |u.entries|
    ensures !HasKey(t.entries, key, key(u.entries[i].row))
  {
    forall j | 0 <= j < |t.entries| ensures key(t.entries[j].row) != key(u.entries[i].row) {
      assert u.entries[..|t.entries|][j] == t.entries[j];
    }
  }

  lemma KeysSplit(t: Table, key: Row -> Row, lo: int, mid: int, hi: int)
    requires lo <= mid <= hi
    ensures KeysBetween(t, key, lo, hi) == KeysBetween(t, key, lo, mid) + KeysBetween(t, key, mid, hi)
  {
    forall k | k in KeysBetween(t, key, lo, hi)
      ensures k in KeysBetween(t, key, lo, mid) + KeysBetween(t, key, mid, hi) {
      var i :| 0 <= i < |t.entries| && lo < t.entries[i].id <= hi && key(t.entries[i].row) == k;
      assert t.entries[i].id <= mid ==> HasKeyBetween(t.entries, key, lo, mid, k);
    }
    forall k | k in KeysBetween(t, key, lo, mid) ensures k in KeysBetween(t, key, lo, hi) {
      var i :| 0 <= i < |t.entries| && lo < t.entries[i].id <= mid && key(t.entries[i].row) == k;
    }
    forall k | k in KeysBetween(t, key, mid, hi) ensures k in KeysBetween(t, key, lo, hi) {
      var i :| 0 <= i < |t.entries| && mid < t.entries[i].id <= hi && key(t.entries[i].row) == k;
    }
  }

  lemma MaxRowidBounds(t: Table, key: Row -> Row)
    requires Valid(t, key)
    ensures MaxRowid(t) <= t.sequence
    ensures forall i | 0 <= i < |t.entries| :: t.entries[i].id <= MaxRowid(t)
    ensures KeysBetween(t, key, 0, MaxRowid(t)) == Keys(t, key)
    ensures forall lo: int, hi: int | MaxRowid(t) <= lo :: KeysBetween(t, key, lo, hi) == iset{}
  {
    forall k | k in Keys(t, key) ensures k in KeysBetween(t, key, 0, MaxRowid(t)) {
      var i :| 0 <= i < |t.entries| && key(t.entries[i].row) == k;
    }
    forall k | k in KeysBetween(t, key, 0, MaxRowid(t)) ensures k in Keys(t, key) {
      var i :| 0 <= i < |t.entries| && 0 < t.entries[i].id <= MaxRowid(t) && key(t.entries[i].row) == k;
    }
  }

  lemma AppendValid(t: Table, key: Row -> Row, row: Row)
    requires Valid(t, key) && !HasKey(t.entries, key, key(row))
    ensures Valid(Table(t.entries + [Entry(t.sequence + 1, row)], t.sequence + 1), key)
  {
    var more := t.entries + [Entry(t.sequence + 1, row)];
    forall i | 0 <= i < |t.entries| ensures more[i] == t.entries[i] && key(more[i].row) != key(row) {
    }
  }

  lemma MaxRowidGrows(t: Table, u: Table, key: Row -> Row)
    requires Valid(u, key) && Extends(t, u)
    ensures MaxRowid(t) <= MaxRowid(u)
  {
    if t.entries != [] {
      assert u.entries[..|t.entries|][|t.entries| - 1] == u.entries[|t.entries| - 1];
    }
  }

  lemma InsertKeepsTable(t: Table, key: Row -> Row, row: Row)
    requires Valid(t, key)
    ensures Valid(InsertOrIgnore(t, key, row), key) && Extends(t, InsertOrIgnore(t, key, row))
    ensures Keys(InsertOrIgnore(t, key, row), key) == Keys(t, key) + iset{key(row)}
  {
    var u := InsertOrIgnore(t, key, row);
    if !HasKey(t.entries, key, key(row)) {
      AppendValid(t, key, row);
      assert u.entries[|t.entries|].row == row;
      KeysGrow(t, u, key);
      forall k | k in Keys(u, key) ensures k in Keys(t, key) + iset{key(row)} {
        var i :| 0 <= i < |u.entries| && key(u.entries[i].row) == k;
        assert i < |t.entries| ==> u.entries[i] == t.entries[i];
      }
    }
  }

  lemma {:induction false} InsertAllKeepsTable(t: Table, key: Row -> Row, rows: seq<Row>)
    requires Valid(t, key)
    ensures Valid(InsertAll(t, key, rows), key) && Extends(t, InsertAll(t, key, rows))
    ensures Keys(InsertAll(t, key, rows), key) == Keys(t, key) + KeysOf(rows, key)
    decreases rows
  {
    if rows == [] {
      assert KeysOf(rows, key) == iset{};
    } else {
      var u := InsertOrIgnore(t, key, rows[0]);
      InsertKeepsTable(t, key, rows[0]);
      InsertAllKeepsTable(u, key, rows[1..]);
      ExtendsTransitive(t, u, InsertAll(u, key, rows[1..]));
      KeysOfCons(rows, key);
    }
  }

  lemma KeysOfCons(rows: seq<Row>, key: Row -> Row)
    requires rows != []
    ensures KeysOf(rows, key) == iset{key(rows[0])} + KeysOf(rows[1..], key)
  {
    forall k | k in KeysOf(rows[1..], key) ensures k in KeysOf(rows, key) {
      var i :| 0 <= i < |rows[1..]| && key(rows[1..][i]) == k;
      assert rows[i + 1] == rows[1..][i];
    }
    forall k | k in KeysOf(rows, key) ensures k in iset{key(rows[0])} + KeysOf(rows[1..], key) {
      var i :| 0 <= i < |rows| && key(rows[i]) == k;
      assert i > 0 ==> rows[1..][i - 1] == rows[i];
    }
  }

  lemma HasKeyBetweenCons(entries: seq<Entry>, key: Row -> Row, lo: int, hi: int, k: Row)
    requires entries != []
    ensures HasKeyBetween(entries, key, lo, hi, k) <==>
              (lo < entries[0].id <= hi && key(entries[0].row) == k) || HasKeyBetween(entries[1..], key, lo, hi, k)
  {
    if HasKeyBetween(entries, key, lo, hi, k) {
      var i :| 0 <= i < |entries| && lo < entries[i].id <= hi && key(entries[i].row) == k;
      assert i > 0 ==> entries[1..][i - 1] == entries[i];
    }
    if HasKeyBetween(entries[1..], key, lo, hi, k) {
      var i :| 0 <= i < |entries[1..]| && lo < entries[1..][i].id <= hi && key(entries[1..][i].row) == k;
      assert entries[i + 1] == entries[1..][i];
    }
  }

  lemma {:induction false} RangeKeys(entries: seq<Entry>, key: Row -> Row, lo: int, hi: int, k: Row)
    ensures HasKeyOf(EntryRows(Range(entries, lo, hi)), key, k) <==> HasKeyBetween(entries, key, lo, hi, k)
  {
    if entries != [] {
      var picked, rest := EntryRows(Range(entries, lo, hi)), EntryRows(Range(entries[1..], lo, hi));
      RangeKeys(entries[1..], key, lo, hi, k);
      HasKeyBetweenCons(entries, key, lo, hi, k);
      if lo < entries[0].id <= hi {
        assert picked == [entries[0].row] + rest;
        assert picked[1..] == rest;
        KeysOfCons(picked, key);
        assert HasKeyOf(picked, key, k) <==> k in KeysOf(picked, key);
        assert HasKeyOf(rest, key, k) <==> k in KeysOf(rest, key);
      } else {
        assert picked == rest;
      }
    }
  }

  /** A subsequence: what a DELETE with a filter leaves. */
  function Keep(entries: seq<Entry>, p: Row -> bool): (kept: seq<Entry>)
    ensures forall e :: e in kept <==> e in entries && p(e.row)
  {
    if entries == [] then []
    else
      assert entries == [entries[0]] + entries[1..];
      (if p(entries[0].row) then [entries[0]] else []) + Keep(entries[1..], p)
  }

  lemma ConsValid(e: Entry, rest: seq<Entry>, sequence: nat, key: Row -> Row)
    requires Ordered(rest, sequence) && Unique(rest, key) && 0 < e.id <= sequence
    requires forall x | x in rest :: e.id < x.id && key(e.row) != key(x.row)
    ensures Ordered([e] + rest, sequence) && Unique([e] + rest, key)
  {
    var all := [e] + rest;
    forall i, j | 0 <= i < j < |all| ensures all[i].id < all[j].id && key(all[i].row) != key(all[j].row) {
      assert all[j] == rest[j - 1];
      assert i > 0 ==> all[i] == rest[i - 1];
    }
  }

  lemma TailValid(entries: seq<Entry>, sequence: nat, key: Row -> Row)
    requires entries != [] && Ordered(entries, sequence) && Unique(entries, key)
    ensures Ordered(entries[1..], sequence) && Unique(entries[1..], key)
    ensures forall x | x in entries[1..] :: entries[0].id < x.id && key(entries[0].row) != key(x.row)
  {
    forall x | x in entries[1..] ensures entries[0].id < x.id && key(entries[0].row) != key(x.row) {
      var j :| 0 <= j < |entries[1..]| && entries[1..][j] == x;
      assert entries[j + 1] == x;
    }
  }

  lemma {:induction false} KeepValid(entries: seq<Entry>, sequence: nat, key: Row -> Row, p: Row -> bool)
    requires Ordered(entries, sequence) && Unique(entries, key)
    ensures Ordered(Keep(entries, p), sequence) && Unique(Keep(entries, p), key)
  {
    if entries != [] {
      var rest := Keep(entries[1..], p);
      TailValid(entries, sequence, key);
      KeepValid(entries[1..], sequence, key, p);
      ConsValid(entries[0], rest, sequence, key);
      assert [] + rest == rest;
    }
  }
}

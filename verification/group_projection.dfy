/** A group reads only the columns its expressions name: projecting its input to
    those, with the expressions renumbered, groups the same. */
module GroupProjection {
  import opened Rows
  import opened Bags
  import Plans
  import opened Columns
  import opened Wrappers
  import opened Numbers

  /** The compiled expressions of a group. */
  datatype Group = Group(keys: seq<string>, expressions: seq<string>, order: seq<string>, having: Option<string>,
                         window: bool)

  /** What SQL sees of an expression on one row: its text, with cells for columns. */
  datatype Piece = Verbatim(text: string) | Cell(value: Value)

  function PieceOf(t: Token, row: Row): Piece {
    if t.column < |row| then Cell(row[t.column]) else Verbatim(t.text)
  }

  function Pieces(tokens: seq<Token>, row: Row): (pieces: seq<Piece>)
    ensures |pieces| == |tokens| && forall i | 0 <= i < |tokens| :: pieces[i] == PieceOf(tokens[i], row)
  {
    seq(|tokens|, i requires 0 <= i < |tokens| => PieceOf(tokens[i], row))
  }

  /** Every expression the group evaluates: keys, results, ordering, HAVING. */
  function Strings(g: Group): seq<string> {
    g.keys + g.expressions + g.order + if g.having.Some? then [g.having.value] else []
  }

  /** The group's view of one row. */
  function View(strings: seq<string>, row: Row): (view: seq<seq<Piece>>)
    ensures |view| == |strings| && forall i | 0 <= i < |strings| :: view[i] == Pieces(Lex(strings[i]), row)
  {
    seq(|strings|, i requires 0 <= i < |strings| => Pieces(Lex(strings[i]), row))
  }

  /** All a grouping query can depend on: its view of every row, with its copies. */
  function Views(strings: seq<string>, s: Bag): seq<(seq<seq<Piece>>, int)> {
    if s == [] then [] else [(View(strings, s[0].row), s[0].m)] + Views(strings, s[1..])
  }

  // ------------------------------------------------------------------- the rewriting

  function Position(kept: seq<nat>, c: nat): (p: nat)
    ensures c in kept ==> p < |kept| && kept[p] == c
    ensures c !in kept ==> p == c
  {
    if c in kept then First(kept, c) else c
  }

  function First(kept: seq<nat>, c: nat): (p: nat)
    requires c in kept
    ensures p < |kept| && kept[p] == c
  {
    if kept[0] == c then 0
    else
      assert kept == [kept[0]] + kept[1..];
      1 + First(kept[1..], c)
  }

  function Renumbered(strings: seq<string>, kept: seq<nat>): (next: seq<string>)
    ensures |next| == |strings|
    ensures forall i | 0 <= i < |strings| :: next[i] == Renumber(strings[i], c => Position(kept, c))
  {
    seq(|strings|, i requires 0 <= i < |strings| => Renumber(strings[i], c => Position(kept, c)))
  }

  function RenumberedGroup(g: Group, kept: seq<nat>): Group {
    Group(Renumbered(g.keys, kept), Renumbered(g.expressions, kept), Renumbered(g.order, kept),
          if g.having.Some? then Some(Renumber(g.having.value, c => Position(kept, c))) else None, g.window)
  }

  /** The cells of the kept columns. */
  function Project(kept: seq<nat>, row: Row): Row {
    seq(|kept|, i requires 0 <= i < |kept| => if kept[i] < |row| then row[kept[i]] else Null)
  }

  predicate Reads(strings: seq<string>, c: nat) {
    exists i :: 0 <= i < |strings| && c in References(strings[i])
  }

  /** `kept` are the read columns in order, or the first one when none is read. */
  ghost predicate KeptOk(strings: seq<string>, width: nat, kept: seq<nat>) {
    && 0 < |kept| <= width < MAX
    && (forall i | 0 <= i < |kept| :: kept[i] < width)
    && (forall i, j | 0 <= i < j < |kept| :: kept[i] < kept[j])
    && (forall c | Reads(strings, c) :: c in kept)
    && (forall c | c in kept :: Reads(strings, c) || (c == 0 && kept == [0]))
  }

  /** Whether some column of the row is read by nobody. */
  predicate Droppable(strings: seq<string>, width: nat) {
    exists c: nat :: c < width && !Reads(strings, c)
  }

  method UsedColumns(strings: seq<string>) returns (used: set<nat>)
    ensures forall c :: c in used <==> Reads(strings, c)
  {
    used := {};
    for i := 0 to |strings|
      invariant forall c :: c in used <==> exists k :: 0 <= k < i && c in References(strings[k])
    {
      var refs := ColumnReferences(strings[i]);
      used := used + set c | c in refs;
    }
  }

  /** Project when a column can be dropped; windows and references outside the row
      are left alone. */
  method ProjectGroupInput(g: Group, width: nat) returns (kept: Option<seq<nat>>, next: Group)
    requires width < MAX
    ensures kept.Some? ==> KeptOk(Strings(g), width, kept.value) && next == RenumberedGroup(g, kept.value)
    ensures kept.None? ==> next == g
    ensures kept.Some? <==>
              !g.window && (forall c: nat | Reads(Strings(g), c) :: c < width) && Droppable(Strings(g), width)
  {
    var used := UsedColumns(Strings(g));
    if forall c | c in used :: c < width {
      UsedBelow(used, width);
      UsedIsRead(Strings(g), used, width);
    }
    if g.window || |used| >= width || exists c :: c in used && c >= width {
      return None, g;
    }
    SortedIsKept(Strings(g), used, width);
    var columns := Sorted(used, width);
    if columns == [] {
      columns := [0];
    }
    return Some(columns), RenumberedGroup(g, columns);
  }

  lemma UsedIsRead(strings: seq<string>, used: set<nat>, width: nat)
    requires forall c :: c in used <==> Reads(strings, c)
    ensures Droppable(strings, width) <==> exists c: nat :: c < width && c !in used
  {
  }

  lemma SortedIsKept(strings: seq<string>, used: set<nat>, width: nat)
    requires (forall c :: c in used <==> Reads(strings, c)) && (forall c | c in used :: c < width)
    requires |used| < width < MAX
    ensures KeptOk(strings, width, if Sorted(used, width) == [] then [0] else Sorted(used, width))
  {
    var columns := Sorted(used, width);
    IncreasingIsShort(columns, width);
    if columns == [] {
      forall c | Reads(strings, c) ensures c in columns {
        assert c in used;
      }
    }
  }

  lemma {:induction false} IncreasingIsShort(columns: seq<nat>, n: nat)
    requires forall i | 0 <= i < |columns| :: columns[i] < n
    requires forall i, j | 0 <= i < j < |columns| :: columns[i] < columns[j]
    ensures |columns| <= n
  {
    if columns != [] {
      IncreasingIsShort(columns[..|columns| - 1], columns[|columns| - 1]);
    }
  }

  /** Fewer used columns than the row has: one of them is not used. */
  lemma UsedBelow(used: set<nat>, width: nat)
    requires forall c | c in used :: c < width
    ensures |used| < width <==> exists c: nat :: c < width && c !in used
  {
    SubsetSize(used, NatsBelow(width));
    if c: nat :| c < width && c !in used {
      assert c in NatsBelow(width);
    } else {
      SubsetSize(NatsBelow(width), used);
    }
  }

  function Sorted(used: set<nat>, n: nat): (columns: seq<nat>)
    ensures forall i | 0 <= i < |columns| :: columns[i] < n
    ensures forall i, j | 0 <= i < j < |columns| :: columns[i] < columns[j]
    ensures forall c: nat :: c in columns <==> c in used && c < n
  {
    if n == 0 then []
    else if n - 1 in used then Sorted(used, n - 1) + [n - 1]
    else Sorted(used, n - 1)
  }

  // ------------------------------------------------------------------------ meaning

  lemma {:induction false} ReferenceIsRead(tokens: seq<Token>, i: nat)
    requires i < |tokens| && tokens[i].column != MAX
    ensures tokens[i].column in ColumnNumbers(tokens)
  {
    if i > 0 {
      assert tokens[1..][i - 1] == tokens[i];
      ReferenceIsRead(tokens[1..], i - 1);
    }
  }

  /** On a projected row, a renumbered expression looks as it did on the full row. */
  lemma PiecesProjected(strings: seq<string>, at: nat, width: nat, kept: seq<nat>, row: Row)
    requires at < |strings| && KeptOk(strings, width, kept) && |row| == width
    ensures Pieces(Lex(Renumber(strings[at], c => Position(kept, c))), Project(kept, row)) ==
              Pieces(Lex(strings[at]), row)
  {
    var tokens := Lex(strings[at]);
    LexRenumbered(strings[at], c => Position(kept, c));
    LexColumns(strings[at]);
    forall i | 0 <= i < |tokens| ensures tokens[i].column == MAX || tokens[i].column in kept {
      if tokens[i].column != MAX {
        ReferenceIsRead(tokens, i);
        assert Reads(strings, tokens[i].column);
      }
    }
    RelexedPieces(tokens, width, kept, row);
  }

  lemma RelexedPieces(tokens: seq<Token>, width: nat, kept: seq<nat>, row: Row)
    requires |kept| <= width == |row| < MAX && forall i | 0 <= i < |kept| :: kept[i] < width
    requires forall i | 0 <= i < |tokens| :: tokens[i].column == ColumnOf(tokens[i].text)
    requires forall i | 0 <= i < |tokens| :: tokens[i].column == MAX || tokens[i].column in kept
    ensures Pieces(Relexed(tokens, c => Position(kept, c)), Project(kept, row)) == Pieces(tokens, row)
  {
    var f := (c: nat) => Position(kept, c);
    forall i | 0 <= i < |tokens| ensures PieceOf(Relexed(tokens, f)[i], Project(kept, row)) == PieceOf(tokens[i], row) {
      if tokens[i].column != MAX {
        ColumnOfName(f(tokens[i].column));
      }
    }
    assert Pieces(Relexed(tokens, f), Project(kept, row)) == Pieces(tokens, row);
  }

  lemma ViewProjected(strings: seq<string>, width: nat, kept: seq<nat>, row: Row)
    requires KeptOk(strings, width, kept) && |row| == width
    ensures View(Renumbered(strings, kept), Project(kept, row)) == View(strings, row)
  {
    forall i | 0 <= i < |strings|
      ensures View(Renumbered(strings, kept), Project(kept, row))[i] == View(strings, row)[i] {
      PiecesProjected(strings, i, width, kept, row);
    }
  }

  lemma RenumberedStrings(g: Group, kept: seq<nat>)
    ensures Strings(RenumberedGroup(g, kept)) == Renumbered(Strings(g), kept)
  {
    var a, b := Strings(RenumberedGroup(g, kept)), Renumbered(Strings(g), kept);
    assert |a| == |b|;
    forall i | 0 <= i < |a| ensures a[i] == b[i] {
      if i >= |g.keys| + |g.expressions| {
        assert i < |g.keys| + |g.expressions| + |g.order| || g.having.Some?;
      }
    }
  }

  /** The rewritten group over the projected rows sees exactly what the original
      group saw of the full rows, so whatever it computes from that is the same. */
  lemma {:induction false} ProjectionPreservesGroup(g: Group, width: nat, kept: seq<nat>, s: Bag)
    requires KeptOk(Strings(g), width, kept) && forall i | 0 <= i < |s| :: |s[i].row| == width
    ensures Views(Strings(RenumberedGroup(g, kept)), Plans.EvalMap(x => Project(kept, x), x => true, s)) ==
              Views(Strings(g), s)
  {
    RenumberedStrings(g, kept);
    if s != [] {
      ViewProjected(Strings(g), width, kept, s[0].row);
      ProjectionPreservesGroup(g, width, kept, s[1..]);
      var head := [Weighted(Project(kept, s[0].row), s[0].m)];
      var rest := Plans.EvalMap(x => Project(kept, x), x => true, s[1..]);
      assert (head + rest)[1..] == rest;
    }
  }
}

/** Splitting a join's ON conditions into key columns and a residual predicate,
    under SQL's three-valued logic. */
module OnSplit {
  import opened Rows
  import opened Wrappers

  datatype Truth = True | False | Unknown

  /** A column in scope. */
  datatype Field = Field(name: string, qualifier: string, unqualified: bool, affinity: string, collation: string)

  /** ON expressions as far as the compiler looks into them. */
  datatype Expr =
    | Column(qualifier: Option<string>, name: string)
    | Parenthesized(inner: Expr)
    | And(left: Expr, right: Expr)
    | Equals(left: Expr, right: Expr)
    | Other(text: string)

  /** SQL beyond the splitter: comparison classes of a cell under a collation,
      equality between columns of different kinds, and every other condition. */
  datatype Sql = Sql(fold: (string, Value) -> Value, mixed: (Field, Field, Value, Value) -> Truth,
                     truth: (Expr, Row) -> Truth)

  // ---------------------------------------------------------------------- columns

  function LowerChar(c: char): char {
    if 'A' <= c <= 'Z' then (c as int + 32) as char else c
  }

  function Lower(s: string): string {
    seq(|s|, i requires 0 <= i < |s| => LowerChar(s[i]))
  }

  predicate Names(f: Field, e: Expr)
    requires e.Column?
  {
    && Lower(f.name) == Lower(e.name)
    && if e.qualifier.Some? then Lower(f.qualifier) == Lower(e.qualifier.value) else f.unqualified
  }

  function Found(fields: seq<Field>, e: Expr, from: nat): (found: seq<nat>)
    requires e.Column? && from <= |fields|
    ensures forall i | 0 <= i < |found| :: found[i] < |fields|
    decreases |fields| - from
  {
    if from == |fields| then []
    else (if Names(fields[from], e) then [from] else []) + Found(fields, e, from + 1)
  }

  /** The one column an expression names, if it names exactly one. */
  function Resolve(fields: seq<Field>, e: Expr): (r: Option<nat>)
    ensures r.Some? ==> r.value < |fields|
  {
    if e.Column? && |Found(fields, e, 0)| == 1 then Some(Found(fields, e, 0)[0]) else None
  }

  /** The same letter, upper or lower case. */
  predicate SameChar(c: char, d: char) {
    || c == d
    || ('A' <= c <= 'Z' && 'a' <= d <= 'z' && d - 'a' == c - 'A')
    || ('a' <= c <= 'z' && 'A' <= d <= 'Z' && c - 'a' == d - 'A')
  }

  predicate SameName(a: string, b: string) {
    |a| == |b| && forall i | 0 <= i < |a| :: SameChar(a[i], b[i])
  }

  /** A qualified name answers to its table's column; a bare one to any column that may
      be named without its table. */
  predicate Answers(f: Field, qualifier: Option<string>, name: string) {
    && SameName(f.name, name)
    && (qualifier.Some? ==> SameName(f.qualifier, qualifier.value))
    && (qualifier.None? ==> f.unqualified)
  }

  lemma LowerSame(a: string, b: string)
    ensures Lower(a) == Lower(b) <==> SameName(a, b)
  {
    forall c: char, d: char ensures LowerChar(c) == LowerChar(d) <==> SameChar(c, d) {}
    if Lower(a) == Lower(b) {
      forall i | 0 <= i < |a| ensures SameChar(a[i], b[i]) {
        assert Lower(a)[i] == Lower(b)[i];
      }
    }
  }

  lemma NamesAnswers(f: Field, e: Expr)
    requires e.Column?
    ensures Names(f, e) <==> Answers(f, e.qualifier, e.name)
  {
    LowerSame(f.name, e.name);
    if e.qualifier.Some? {
      LowerSame(f.qualifier, e.qualifier.value);
    }
  }

  lemma {:induction false} FoundExact(fields: seq<Field>, e: Expr, from: nat)
    requires e.Column? && from <= |fields|
    ensures forall i: nat :: i in Found(fields, e, from) <==>
              from <= i < |fields| && Answers(fields[i], e.qualifier, e.name)
    ensures forall i, j | 0 <= i < j < |Found(fields, e, from)| :: Found(fields, e, from)[i] < Found(fields, e, from)[j]
    decreases |fields| - from
  {
    if from < |fields| {
      NamesAnswers(fields[from], e);
      FoundExact(fields, e, from + 1);
      var rest := Found(fields, e, from + 1);
      assert forall j | 0 <= j < |rest| :: rest[j] in rest;
    }
  }

  /** A name resolves to a column exactly when that column answers to it and no other
      does; what is no name resolves to nothing. */
  lemma ResolvesTo(fields: seq<Field>, e: Expr, i: nat)
    ensures Resolve(fields, e) == Some(i) <==>
            && e.Column? && i < |fields| && Answers(fields[i], e.qualifier, e.name)
            && forall j: nat | j < |fields| && j != i :: !Answers(fields[j], e.qualifier, e.name)
  {
    if e.Column? {
      FoundExact(fields, e, 0);
      var found := Found(fields, e, 0);
      if |found| == 1 {
        assert found[0] in found;
        assert forall j: nat | j in found :: j == found[0];
      } else if |found| > 1 {
        assert found[0] in found && found[1] in found && found[0] != found[1];
      }
    }
  }

  // ---------------------------------------------------------------------- meaning

  function And3(a: Truth, b: Truth): Truth {
    if a == False || b == False then False
    else if a == True && b == True then True
    else Unknown
  }

  predicate Alike(f: Field, g: Field) {
    f.affinity == g.affinity && f.collation == g.collation
  }

  /** SQL `=` between two columns. */
  function Compare(sql: Sql, f: Field, g: Field, x: Value, y: Value): Truth {
    if x == Null || y == Null then Unknown
    else if !Alike(f, g) then sql.mixed(f, g, x, y)
    else if sql.fold(f.collation, x) == sql.fold(g.collation, y) then True
    else False
  }

  function Eval(sql: Sql, fields: seq<Field>, e: Expr, row: Row): Truth
    requires |row| == |fields|
  {
    match e
    case Parenthesized(inner) => Eval(sql, fields, inner, row)
    case And(a, b) => And3(Eval(sql, fields, a, row), Eval(sql, fields, b, row))
    case Equals(a, b) =>
      var i, j := Resolve(fields, a), Resolve(fields, b);
      if i.None? || j.None? then sql.truth(e, row)
      else Compare(sql, fields[i.value], fields[j.value], row[i.value], row[j.value])
    case _ => sql.truth(e, row)
  }

  /** A join accepts a pair where every condition is true, not where one is unknown. */
  predicate Accepts(sql: Sql, fields: seq<Field>, ons: seq<Expr>, row: Row)
    requires |row| == |fields|
  {
    forall i | 0 <= i < |ons| :: Eval(sql, fields, ons[i], row) == True
  }

  // --------------------------------------------------------------------- splitting

  /** A left column and a right column, both counted from their own side. */
  datatype Pair = Pair(left: nat, right: nat)

  /** The equality that connects the two inputs, either way round. */
  function Connects(split: nat, a: nat, b: nat): Option<Pair> {
    if a < split && b >= split then Some(Pair(a, b - split))
    else if b < split && a >= split then Some(Pair(b, a - split))
    else None
  }

  /** Strict: the whole condition is a conjunction of connecting equalities. */
  function Pairs(fields: seq<Field>, split: nat, e: Expr): Option<seq<Pair>> {
    match e
    case Parenthesized(inner) => Pairs(fields, split, inner)
    case And(a, b) =>
      var l, r := Pairs(fields, split, a), Pairs(fields, split, b);
      if l.Some? && r.Some? then Some(l.value + r.value) else None
    case Equals(a, b) =>
      var i, j := Resolve(fields, a), Resolve(fields, b);
      if i.None? || j.None? then None
      else
        var p := Connects(split, i.value, j.value);
        if p.Some? then Some([p.value]) else None
    case _ => None
  }

  /** Lenient: the connecting equalities between columns alike, wherever they stand
      as conjuncts. */
  function IndexPairs(fields: seq<Field>, split: nat, e: Expr): seq<Pair> {
    match e
    case Parenthesized(inner) => IndexPairs(fields, split, inner)
    case And(a, b) => IndexPairs(fields, split, a) + IndexPairs(fields, split, b)
    case Equals(a, b) =>
      var i, j := Resolve(fields, a), Resolve(fields, b);
      if i.None? || j.None? || !Alike(fields[i.value], fields[j.value]) then []
      else
        var p := Connects(split, i.value, j.value);
        if p.Some? then [p.value] else []
    case _ => []
  }

  /** The condition has, as a conjunct, an equality of columns `i` and `j`, either way round. */
  predicate Equates(fields: seq<Field>, e: Expr, i: nat, j: nat) {
    match e
    case Parenthesized(inner) => Equates(fields, inner, i, j)
    case And(a, b) => Equates(fields, a, i, j) || Equates(fields, b, i, j)
    case Equals(a, b) =>
      || (Resolve(fields, a) == Some(i) && Resolve(fields, b) == Some(j))
      || (Resolve(fields, a) == Some(j) && Resolve(fields, b) == Some(i))
    case _ => false
  }

  /** The keys are exactly the columns, one of each side and of one affinity and
      collation, that some conjunct equates. */
  lemma {:induction false} KeysAre(fields: seq<Field>, split: nat, e: Expr, l: nat, r: nat)
    ensures Pair(l, r) in IndexPairs(fields, split, e) <==>
              && l < split && split + r < |fields| && Equates(fields, e, l, split + r)
              && fields[l].affinity == fields[split + r].affinity && fields[l].collation == fields[split + r].collation
  {
    match e
    case Parenthesized(inner) => KeysAre(fields, split, inner, l, r);
    case And(a, b) =>
      KeysAre(fields, split, a, l, r);
      KeysAre(fields, split, b, l, r);
    case _ =>
  }

  /** Key cells are compared folded, by `=`. */
  predicate KeyMatches(sql: Sql, fields: seq<Field>, split: nat, p: Pair, row: Row)
    requires |row| == |fields|
  {
    && p.left < split && split + p.right < |fields|
    && row[p.left] != Null && row[split + p.right] != Null
    && sql.fold(fields[p.left].collation, row[p.left]) ==
       sql.fold(fields[split + p.right].collation, row[split + p.right])
  }

  predicate AllMatch(sql: Sql, fields: seq<Field>, split: nat, ps: seq<Pair>, row: Row)
    requires |row| == |fields|
  {
    forall i | 0 <= i < |ps| :: KeyMatches(sql, fields, split, ps[i], row)
  }

  lemma MatchAppend(sql: Sql, fields: seq<Field>, split: nat, ps: seq<Pair>, qs: seq<Pair>, row: Row)
    requires |row| == |fields|
    ensures AllMatch(sql, fields, split, ps + qs, row) <==>
              AllMatch(sql, fields, split, ps, row) && AllMatch(sql, fields, split, qs, row)
  {
    if AllMatch(sql, fields, split, ps + qs, row) {
      assert forall i | 0 <= i < |ps| :: ps[i] == (ps + qs)[i];
      assert forall i | 0 <= i < |qs| :: qs[i] == (ps + qs)[|ps| + i];
    }
  }

  /** Every extracted key is implied by the condition. */
  lemma {:induction false} KeysImplied(sql: Sql, fields: seq<Field>, split: nat, e: Expr, row: Row)
    requires |row| == |fields| && split <= |fields| && Eval(sql, fields, e, row) == True
    ensures AllMatch(sql, fields, split, IndexPairs(fields, split, e), row)
  {
    match e
    case Parenthesized(inner) => KeysImplied(sql, fields, split, inner, row);
    case And(a, b) =>
      KeysImplied(sql, fields, split, a, row);
      KeysImplied(sql, fields, split, b, row);
      MatchAppend(sql, fields, split, IndexPairs(fields, split, a), IndexPairs(fields, split, b), row);
    case _ =>
  }

  /** The lenient split never finds more than the strict one. */
  lemma {:induction false} LenientIsShorter(fields: seq<Field>, split: nat, e: Expr)
    requires Pairs(fields, split, e).Some?
    ensures |IndexPairs(fields, split, e)| <= |Pairs(fields, split, e).value|
  {
    match e
    case Parenthesized(inner) => LenientIsShorter(fields, split, inner);
    case And(a, b) =>
      LenientIsShorter(fields, split, a);
      LenientIsShorter(fields, split, b);
    case _ =>
  }

  lemma SplitEqual(a: seq<Pair>, b: seq<Pair>, c: seq<Pair>, d: seq<Pair>)
    requires |a| <= |c| && |b| <= |d| && a + b == c + d
    ensures a == c && b == d
  {
    assert |a| + |b| == |c| + |d|;
    assert a == (a + b)[..|a|] && c == (c + d)[..|c|];
    assert b == (a + b)[|a|..] && d == (c + d)[|c|..];
  }

  /** When both splits agree, the keys are the whole condition. */
  lemma {:induction false} KeysSuffice(sql: Sql, fields: seq<Field>, split: nat, e: Expr, row: Row)
    requires |row| == |fields| && split <= |fields|
    requires Pairs(fields, split, e) == Some(IndexPairs(fields, split, e))
    requires AllMatch(sql, fields, split, IndexPairs(fields, split, e), row)
    ensures Eval(sql, fields, e, row) == True
  {
    match e
    case Parenthesized(inner) => KeysSuffice(sql, fields, split, inner, row);
    case And(a, b) =>
      LenientIsShorter(fields, split, a);
      LenientIsShorter(fields, split, b);
      SplitEqual(IndexPairs(fields, split, a), IndexPairs(fields, split, b), Pairs(fields, split, a).value,
                 Pairs(fields, split, b).value);
      MatchAppend(sql, fields, split, IndexPairs(fields, split, a), IndexPairs(fields, split, b), row);
      KeysSuffice(sql, fields, split, a, row);
      KeysSuffice(sql, fields, split, b, row);
    case Equals(a, b) =>
      var p := IndexPairs(fields, split, e)[0];
      assert KeyMatches(sql, fields, split, p, row);
    case _ =>
  }

  // ------------------------------------------------------------------------ joined

  function AllIndexPairs(fields: seq<Field>, split: nat, ons: seq<Expr>): seq<Pair> {
    if ons == [] then [] else AllIndexPairs(fields, split, ons[..|ons| - 1]) + IndexPairs(fields, split, ons[|ons| - 1])
  }

  function AllPairs(fields: seq<Field>, split: nat, ons: seq<Expr>): Option<seq<Pair>> {
    if ons == [] then Some([])
    else
      var before, last := AllPairs(fields, split, ons[..|ons| - 1]), Pairs(fields, split, ons[|ons| - 1]);
      if before.Some? && last.Some? then Some(before.value + last.value) else None
  }

  function Lefts(ps: seq<Pair>): (l: seq<nat>)
    ensures |l| == |ps| && forall i | 0 <= i < |ps| :: l[i] == ps[i].left
  {
    seq(|ps|, i requires 0 <= i < |ps| => ps[i].left)
  }

  function Rights(ps: seq<Pair>): (r: seq<nat>)
    ensures |r| == |ps| && forall i | 0 <= i < |ps| :: r[i] == ps[i].right
  {
    seq(|ps|, i requires 0 <= i < |ps| => ps[i].right)
  }

  /** A join node's key columns and whether its conditions stay as a predicate. */
  datatype Join = Join(left: seq<nat>, right: seq<nat>, residual: bool)

  /** What the node accepts: its keys match, and its predicate, if any, is true. */
  predicate JoinAccepts(sql: Sql, fields: seq<Field>, split: nat, join: Join, ons: seq<Expr>, row: Row)
    requires |row| == |fields| && |join.left| == |join.right|
  {
    && (forall i | 0 <= i < |join.left| :: KeyMatches(sql, fields, split, Pair(join.left[i], join.right[i]), row))
    && (join.residual ==> Accepts(sql, fields, ons, row))
  }

  function Split(fields: seq<Field>, split: nat, ons: seq<Expr>): Join {
    var keys := AllIndexPairs(fields, split, ons);
    Join(Lefts(keys), Rights(keys), AllPairs(fields, split, ons) != Some(keys))
  }

  /** Every condition's key columns, leniently. */
  method CollectIndexPairs(fields: seq<Field>, split: nat, ons: seq<Expr>) returns (l: seq<nat>, r: seq<nat>)
    ensures l == Lefts(AllIndexPairs(fields, split, ons)) && r == Rights(AllIndexPairs(fields, split, ons))
  {
    l, r := [], [];
    for i := 0 to |ons|
      invariant l == Lefts(AllIndexPairs(fields, split, ons[..i]))
      invariant r == Rights(AllIndexPairs(fields, split, ons[..i]))
    {
      assert ons[..i + 1][..i] == ons[..i];
      l := l + Lefts(IndexPairs(fields, split, ons[i]));
      r := r + Rights(IndexPairs(fields, split, ons[i]));
    }
    assert ons[..|ons|] == ons;
  }

  /** Strictly, giving up at the first condition that is not all key columns. */
  method CollectPairs(fields: seq<Field>, split: nat, ons: seq<Expr>) returns (pure: bool, l: seq<nat>, r: seq<nat>)
    ensures pure <==> AllPairs(fields, split, ons).Some?
    ensures pure ==> l == Lefts(AllPairs(fields, split, ons).value) && r == Rights(AllPairs(fields, split, ons).value)
  {
    pure, l, r := true, [], [];
    for at := 0 to |ons|
      invariant pure && AllPairs(fields, split, ons[..at]).Some?
      invariant l == Lefts(AllPairs(fields, split, ons[..at]).value)
      invariant r == Rights(AllPairs(fields, split, ons[..at]).value)
    {
      assert ons[..at + 1][..at] == ons[..at];
      var p := Pairs(fields, split, ons[at]);
      if p.None? {
        StrictPrefix(fields, split, ons, at + 1);
        return false, l, r;
      }
      l := l + Lefts(p.value);
      r := r + Rights(p.value);
    }
    assert ons[..|ons|] == ons;
  }

  /** Collect key columns leniently and strictly; drop the predicate when both agree. */
  method Joined(fields: seq<Field>, split: nat, ons: seq<Expr>) returns (join: Join)
    ensures join == Split(fields, split, ons)
  {
    var l, r := CollectIndexPairs(fields, split, ons);
    var pure, strictL, strictR := CollectPairs(fields, split, ons);
    if pure {
      SamePairs(AllPairs(fields, split, ons).value, AllIndexPairs(fields, split, ons));
    }
    join := Join(l, r, !(pure && strictL == l && strictR == r));
  }

  lemma SamePairs(a: seq<Pair>, b: seq<Pair>)
    ensures a == b <==> Lefts(a) == Lefts(b) && Rights(a) == Rights(b)
  {
    if Lefts(a) == Lefts(b) && Rights(a) == Rights(b) {
      forall i | 0 <= i < |a| ensures a[i] == b[i] {
        assert Lefts(a)[i] == Lefts(b)[i] && Rights(a)[i] == Rights(b)[i];
      }
    }
  }

  /** A condition that fails to split makes every longer list fail. */
  lemma {:induction false} StrictPrefix(fields: seq<Field>, split: nat, ons: seq<Expr>, at: nat)
    requires at <= |ons|
    ensures AllPairs(fields, split, ons[..at]).None? ==> AllPairs(fields, split, ons).None?
    ensures at == |ons| ==> ons[..at] == ons
    decreases |ons| - at
  {
    if at < |ons| {
      assert ons[..at + 1][..at] == ons[..at];
      StrictPrefix(fields, split, ons, at + 1);
    } else {
      assert ons[..at] == ons;
    }
  }

  lemma {:induction false} AllKeysImplied(sql: Sql, fields: seq<Field>, split: nat, ons: seq<Expr>, row: Row)
    requires |row| == |fields| && split <= |fields| && Accepts(sql, fields, ons, row)
    ensures AllMatch(sql, fields, split, AllIndexPairs(fields, split, ons), row)
  {
    if ons != [] {
      var last := ons[|ons| - 1];
      AllKeysImplied(sql, fields, split, ons[..|ons| - 1], row);
      KeysImplied(sql, fields, split, last, row);
      MatchAppend(sql, fields, split, AllIndexPairs(fields, split, ons[..|ons| - 1]), IndexPairs(fields, split, last),
                  row);
    }
  }

  lemma {:induction false} AllLenientIsShorter(fields: seq<Field>, split: nat, ons: seq<Expr>)
    requires AllPairs(fields, split, ons).Some?
    ensures |AllIndexPairs(fields, split, ons)| <= |AllPairs(fields, split, ons).value|
  {
    if ons != [] {
      AllLenientIsShorter(fields, split, ons[..|ons| - 1]);
      LenientIsShorter(fields, split, ons[|ons| - 1]);
    }
  }

  lemma {:induction false} AllKeysSuffice(sql: Sql, fields: seq<Field>, split: nat, ons: seq<Expr>, row: Row)
    requires |row| == |fields| && split <= |fields|
    requires AllPairs(fields, split, ons) == Some(AllIndexPairs(fields, split, ons))
    requires AllMatch(sql, fields, split, AllIndexPairs(fields, split, ons), row)
    ensures Accepts(sql, fields, ons, row)
  {
    if ons != [] {
      var before, last := ons[..|ons| - 1], ons[|ons| - 1];
      AllLenientIsShorter(fields, split, before);
      LenientIsShorter(fields, split, last);
      SplitEqual(AllIndexPairs(fields, split, before), IndexPairs(fields, split, last),
                 AllPairs(fields, split, before).value, Pairs(fields, split, last).value);
      MatchAppend(sql, fields, split, AllIndexPairs(fields, split, before), IndexPairs(fields, split, last), row);
      AllKeysSuffice(sql, fields, split, before, row);
      KeysSuffice(sql, fields, split, last, row);
      assert forall i | 0 <= i < |before| :: before[i] == ons[i];
    }
  }

  /** The split join accepts exactly the pairs on which every ON condition is true. */
  lemma SplitPreservesOn(sql: Sql, fields: seq<Field>, split: nat, ons: seq<Expr>, row: Row)
    requires |row| == |fields| && split <= |fields|
    ensures JoinAccepts(sql, fields, split, Split(fields, split, ons), ons, row) <==> Accepts(sql, fields, ons, row)
  {
    var keys := AllIndexPairs(fields, split, ons);
    var join := Split(fields, split, ons);
    assert AllMatch(sql, fields, split, keys, row) <==>
           (forall i | 0 <= i < |join.left| ::
             KeyMatches(sql, fields, split, Pair(join.left[i], join.right[i]), row)) by {
      assert forall i | 0 <= i < |keys| :: keys[i] == Pair(join.left[i], join.right[i]);
    }
    if Accepts(sql, fields, ons, row) {
      AllKeysImplied(sql, fields, split, ons, row);
    }
    if !join.residual && AllMatch(sql, fields, split, keys, row) {
      AllKeysSuffice(sql, fields, split, ons, row);
    }
  }
}

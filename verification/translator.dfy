/** Scalar expressions translated to SQL with two explicit stacks, against the
    recursive translation and against the engines' own evaluation. SQL is an
    expression tree here; its text is not modelled. */
module Translator {
  import opened Numbers

  datatype Ty = Int | Id | Text | Real | Any

  datatype Func = Eq | Ne | Lt | Le | Gt | Ge | Add | Sub | And | Or | Not | TermLt | StrNil

  datatype Expr =
    | Col(c: nat)
    | Lit(n: int)
    | TextCell(t: nat)
    | TermCell(t: nat)
    | Call(f: Func, args: seq<Expr>)

  datatype Error = InvalidExpression | ArithmeticOnRealOrAny | OrderedRealOrAny

  datatype Result<T> = Ok(value: T) | Err(error: Error)

  datatype Sql =
    | Column(i: nat)
    | Number(n: int)
    | Wrapped(add: bool, x: Sql, y: Sql)
    | IsZero(x: Sql)
    | BothNonZero(x: Sql, y: Sql)
    | EitherNonZero(x: Sql, y: Sql)
    | SortKey(ty: Ty, x: Sql)
    | Comparison(op: Func, x: Sql, y: Sql)
    | Ranks(op: Func, left: int, right: int)

  type Typed = (Sql, Ty)

  /** The columns in scope, and the cells of the program's texts and terms. */
  datatype Scope = Scope(types: seq<Ty>, texts: seq<int>, terms: seq<int>, nil: int)

  // -------------------------------------------------------------------- translation

  function Arity(f: Func): nat {
    if f == Not then 1 else 2
  }

  predicate IsOperator(e: Expr) {
    e.Call? && e.f != StrNil
  }

  function Leaf(e: Expr, scope: Scope): Result<Typed> {
    match e
    case Col(c) => if c < |scope.types| then Ok((Column(c), scope.types[c])) else Err(InvalidExpression)
    case Lit(n) => Ok((Number(n), Int))
    case TextCell(t) => if t < |scope.texts| then Ok((Number(scope.texts[t]), Text)) else Err(InvalidExpression)
    case TermCell(t) => if t < |scope.terms| then Ok((Number(scope.terms[t]), Id)) else Err(InvalidExpression)
    case Call(f, args) => if f == StrNil && args == [] then Ok((Number(scope.nil), Text)) else Err(InvalidExpression)
  }

  /** The value SQL orders a cell by. */
  function Ordered(ty: Ty, x: Sql): Result<Sql> {
    match ty
    case Int => Ok(x)
    case Text => Ok(SortKey(Text, x))
    case Id => Ok(SortKey(Id, x))
    case _ => Err(OrderedRealOrAny)
  }

  function Rank(ty: Ty): int {
    match ty
    case Int => 1
    case Real => 1
    case Text => 2
    case Id => 3
    case Any => 4
  }

  predicate Inexact(ty: Ty) {
    ty == Real || ty == Any
  }

  predicate Compares(f: Func) {
    f == Eq || f == Ne || f == Lt || f == Le || f == Gt || f == Ge
  }

  /** A comparison of two cells: by kind when the kinds differ, directly when equality
      of cells decides, else by the ordered values. */
  function CompareSql(f: Func, x: Typed, y: Typed): Result<Typed> {
    if Rank(x.1) != Rank(y.1) then Ok((Ranks(f, Rank(x.1), Rank(y.1)), Int))
    else if (f == Eq || f == Ne) && x.1 == y.1 && !Inexact(x.1) then Ok((Comparison(f, x.0, y.0), Int))
    else
      var l, r := Ordered(x.1, x.0), Ordered(y.1, y.0);
      if l.Err? then Err(l.error) else if r.Err? then Err(r.error) else Ok((Comparison(f, l.value, r.value), Int))
  }

  /** A call over its translated arguments. */
  function CallSql(f: Func, a: seq<Typed>): Result<Typed> {
    if |a| == 0 then Err(InvalidExpression)
    else if f == Not then Ok((IsZero(a[0].0), Int))
    else if |a| == 1 then Err(InvalidExpression)
    else
      var x, y := a[0], a[1];
      match f
      case Add =>
        if Inexact(x.1) || Inexact(y.1) then Err(ArithmeticOnRealOrAny) else Ok((Wrapped(true, x.0, y.0), Int))
      case Sub =>
        if Inexact(x.1) || Inexact(y.1) then Err(ArithmeticOnRealOrAny) else Ok((Wrapped(false, x.0, y.0), Int))
      case And => Ok((BothNonZero(x.0, y.0), Int))
      case Or => Ok((EitherNonZero(x.0, y.0), Int))
      case TermLt => Ok((Comparison(Lt, SortKey(Id, x.0), SortKey(Id, y.0)), Int))
      case StrNil => Err(InvalidExpression)
      case _ => CompareSql(f, x, y)
  }

  /** The recursive translation: arity first, then the arguments left to right, then
      the call; the first error wins. */
  function Translate(e: Expr, scope: Scope): Result<Typed> {
    if !IsOperator(e) then Leaf(e, scope)
    else if |e.args| != Arity(e.f) then Err(InvalidExpression)
    else
      var x := Translate(e.args[0], scope);
      if x.Err? then x
      else if Arity(e.f) == 1 then CallSql(e.f, [x.value])
      else
        var y := Translate(e.args[1], scope);
        if y.Err? then y else CallSql(e.f, [x.value, y.value])
  }

  // ------------------------------------------------------------- what is accepted

  /** The type a cell of this expression has, once accepted. */
  function TypeOf(e: Expr, scope: Scope): Ty {
    match e
    case Col(c) => if c < |scope.types| then scope.types[c] else Int
    case Lit(_) => Int
    case TextCell(_) => Text
    case TermCell(_) => Id
    case Call(f, _) => if f == StrNil then Text else Int
  }

  /** Integers and reals are one kind of cell; texts, terms and dynamic cells are others. */
  predicate OneKind(x: Ty, y: Ty) {
    x == y || (x == Int && y == Real) || (x == Real && y == Int)
  }

  predicate Dynamic(t: Ty) {
    t == Real || t == Any
  }

  /** Arithmetic wants no real or dynamic operand, a comparison none of the same kind. */
  predicate OperandsOk(f: Func, x: Ty, y: Ty) {
    match f
    case Add => !Dynamic(x) && !Dynamic(y)
    case Sub => !Dynamic(x) && !Dynamic(y)
    case And => true
    case Or => true
    case TermLt => true
    case Not => true
    case StrNil => false
    case _ => OneKind(x, y) ==> !Dynamic(x) && !Dynamic(y)
  }

  /** Names and literals in scope, and calls of the right arity on accepted operands of
      the right types. */
  predicate Accepted(e: Expr, scope: Scope) {
    match e
    case Col(c) => c < |scope.types|
    case Lit(_) => true
    case TextCell(t) => t < |scope.texts|
    case TermCell(t) => t < |scope.terms|
    case Call(f, args) =>
      if f == StrNil then args == []
      else if f == Not then |args| == 1 && Accepted(args[0], scope)
      else
        && |args| == 2 && Accepted(args[0], scope) && Accepted(args[1], scope)
        && OperandsOk(f, TypeOf(args[0], scope), TypeOf(args[1], scope))
  }

  lemma CallAccepts(f: Func, x: Typed, y: Typed)
    requires f != Not
    ensures CallSql(f, [x, y]).Ok? <==> OperandsOk(f, x.1, y.1)
    ensures CallSql(f, [x, y]).Ok? ==> CallSql(f, [x, y]).value.1 == Int
    ensures f == Add || f == Sub ==> CallSql(f, [x, y]).Ok? || CallSql(f, [x, y]).error == ArithmeticOnRealOrAny
    ensures Compares(f) ==> CallSql(f, [x, y]).Ok? || CallSql(f, [x, y]).error == OrderedRealOrAny
  {
  }

  /** Exactly these expressions are translated, to cells of that type. */
  lemma {:induction false} TranslatesAccepted(e: Expr, scope: Scope)
    ensures Translate(e, scope).Ok? <==> Accepted(e, scope)
    ensures Translate(e, scope).Ok? ==> Translate(e, scope).value.1 == TypeOf(e, scope)
  {
    if IsOperator(e) && |e.args| == Arity(e.f) {
      TranslatesAccepted(e.args[0], scope);
      if e.f != Not {
        TranslatesAccepted(e.args[1], scope);
        var x, y := Translate(e.args[0], scope), Translate(e.args[1], scope);
        if x.Ok? && y.Ok? {
          CallAccepts(e.f, x.value, y.value);
        }
      }
    }
  }

  // -------------------------------------------------------------------- two stacks

  datatype Step = Enter(e: Expr) | Apply(f: Func, len: nat)

  function Weight(e: Expr): nat {
    if !IsOperator(e) then 1
    else 2 + (if |e.args| >= 1 then Weight(e.args[0]) else 0) + (if |e.args| >= 2 then Weight(e.args[1]) else 0)
  }

  function Work(steps: seq<Step>): nat {
    if steps == [] then 0
    else Work(steps[..|steps| - 1]) + match steps[|steps| - 1] case Enter(e) => Weight(e) case Apply(_, _) => 1
  }

  /** Running the steps from the top never takes more values than `height` allows and
      ends with one. */
  predicate Balanced(steps: seq<Step>, height: nat)
    decreases |steps|
  {
    if steps == [] then height == 1
    else
      var rest := steps[..|steps| - 1];
      match steps[|steps| - 1]
      case Enter(_) => Balanced(rest, height + 1)
      case Apply(_, len) => height >= len && Balanced(rest, height - len + 1)
  }

  /** What the remaining steps make of the values translated so far. */
  function Finish(steps: seq<Step>, done: seq<Typed>, scope: Scope): Result<seq<Typed>>
    requires Balanced(steps, |done|)
    decreases |steps|
  {
    if steps == [] then Ok(done)
    else
      var rest := steps[..|steps| - 1];
      match steps[|steps| - 1]
      case Enter(e) =>
        var r := Translate(e, scope);
        if r.Err? then Err(r.error) else Finish(rest, done + [r.value], scope)
      case Apply(f, len) =>
        var r := CallSql(f, done[|done| - len..]);
        if r.Err? then Err(r.error) else Finish(rest, done[..|done| - len] + [r.value], scope)
  }

  lemma WorkSnoc(steps: seq<Step>, s: Step)
    ensures Work(steps + [s]) == Work(steps) + if s.Enter? then Weight(s.e) else 1
  {
    assert (steps + [s])[..|steps|] == steps;
  }

  lemma FinishEnter(steps: seq<Step>, e: Expr, done: seq<Typed>, scope: Scope)
    requires Balanced(steps + [Enter(e)], |done|)
    ensures Balanced(steps, |done| + 1)
    ensures Translate(e, scope).Err? ==> Finish(steps + [Enter(e)], done, scope) == Err(Translate(e, scope).error)
    ensures Translate(e, scope).Ok? ==>
      Finish(steps + [Enter(e)], done, scope) == Finish(steps, done + [Translate(e, scope).value], scope)
  {
    assert (steps + [Enter(e)])[..|steps|] == steps;
  }

  lemma FinishApply(steps: seq<Step>, f: Func, len: nat, done: seq<Typed>, scope: Scope)
    requires Balanced(steps + [Apply(f, len)], |done|)
    ensures |done| >= len && Balanced(steps, |done| - len + 1)
    ensures CallSql(f, done[|done| - len..]).Err? ==>
      Finish(steps + [Apply(f, len)], done, scope) == Err(CallSql(f, done[|done| - len..]).error)
    ensures CallSql(f, done[|done| - len..]).Ok? ==>
      Finish(steps + [Apply(f, len)], done, scope) ==
      Finish(steps, done[..|done| - len] + [CallSql(f, done[|done| - len..]).value], scope)
  {
    assert (steps + [Apply(f, len)])[..|steps|] == steps;
  }

  /** The steps an operator is replaced by: its arguments on top, first one first. */
  function Pushed(steps: seq<Step>, e: Expr): seq<Step>
    requires IsOperator(e) && |e.args| == Arity(e.f)
  {
    if Arity(e.f) == 1 then steps + [Apply(e.f, 1)] + [Enter(e.args[0])]
    else steps + [Apply(e.f, 2)] + [Enter(e.args[1])] + [Enter(e.args[0])]
  }

  lemma BalancedSnoc(steps: seq<Step>, s: Step, height: nat)
    ensures s.Enter? ==> (Balanced(steps + [s], height) <==> Balanced(steps, height + 1))
    ensures s.Apply? ==> (Balanced(steps + [s], height) <==> height >= s.len && Balanced(steps, height - s.len + 1))
  {
    assert (steps + [s])[..|steps|] == steps;
  }

  /** Pushing an operator's steps does what translating it at once would do. */
  lemma PushedFinish(steps: seq<Step>, e: Expr, done: seq<Typed>, scope: Scope)
    requires IsOperator(e) && |e.args| == Arity(e.f) && Balanced(steps + [Enter(e)], |done|)
    ensures Balanced(Pushed(steps, e), |done|)
    ensures Finish(Pushed(steps, e), done, scope) == Finish(steps + [Enter(e)], done, scope)
    ensures Work(Pushed(steps, e)) < Work(steps + [Enter(e)])
  {
    var apply := steps + [Apply(e.f, Arity(e.f))];
    BalancedSnoc(steps, Enter(e), |done|);
    BalancedSnoc(steps, Apply(e.f, Arity(e.f)), |done| + Arity(e.f));
    WorkSnoc(steps, Enter(e));
    WorkSnoc(steps, Apply(e.f, Arity(e.f)));
    FinishEnter(steps, e, done, scope);
    var x := Translate(e.args[0], scope);
    if Arity(e.f) == 1 {
      BalancedSnoc(apply, Enter(e.args[0]), |done|);
      WorkSnoc(apply, Enter(e.args[0]));
      FinishEnter(apply, e.args[0], done, scope);
      if x.Ok? {
        FinishApply(steps, e.f, 1, done + [x.value], scope);
        assert (done + [x.value])[|done|..] == [x.value] && (done + [x.value])[..|done|] == done;
      }
    } else {
      PushedBinary(steps, e, done, scope);
    }
  }

  lemma BinaryBalanced(steps: seq<Step>, e: Expr, height: nat)
    requires IsOperator(e) && |e.args| == Arity(e.f) == 2 && Balanced(steps + [Enter(e)], height)
    ensures Balanced(Pushed(steps, e), height) && Work(Pushed(steps, e)) < Work(steps + [Enter(e)])
  {
    var apply := steps + [Apply(e.f, 2)];
    var second := apply + [Enter(e.args[1])];
    BalancedSnoc(steps, Enter(e), height);
    BalancedSnoc(steps, Apply(e.f, 2), height + 2);
    BalancedSnoc(apply, Enter(e.args[1]), height + 1);
    BalancedSnoc(second, Enter(e.args[0]), height);
    WorkSnoc(steps, Enter(e));
    WorkSnoc(steps, Apply(e.f, 2));
    WorkSnoc(apply, Enter(e.args[1]));
    WorkSnoc(second, Enter(e.args[0]));
  }

  lemma PushedBinary(steps: seq<Step>, e: Expr, done: seq<Typed>, scope: Scope)
    requires IsOperator(e) && |e.args| == Arity(e.f) == 2 && Balanced(steps + [Enter(e)], |done|)
    ensures Balanced(Pushed(steps, e), |done|) && Work(Pushed(steps, e)) < Work(steps + [Enter(e)])
    ensures Finish(Pushed(steps, e), done, scope) == Finish(steps + [Enter(e)], done, scope)
  {
    BinaryBalanced(steps, e, |done|);
    FinishEnter(steps, e, done, scope);
    FinishEnter(steps + [Apply(e.f, 2)] + [Enter(e.args[1])], e.args[0], done, scope);
    if Translate(e.args[0], scope).Ok? {
      FinishSecond(steps, e, done, Translate(e.args[0], scope).value, scope);
    }
  }

  /** With the first argument translated, the second and the call remain. */
  lemma FinishSecond(steps: seq<Step>, e: Expr, done: seq<Typed>, x: Typed, scope: Scope)
    requires IsOperator(e) && |e.args| == Arity(e.f) == 2
    requires Balanced(steps + [Apply(e.f, 2)] + [Enter(e.args[1])], |done| + 1)
    ensures Balanced(steps, |done| + 1)
    ensures
      var y := Translate(e.args[1], scope);
      Finish(steps + [Apply(e.f, 2)] + [Enter(e.args[1])], done + [x], scope) ==
        (if y.Err? then Err(y.error)
         else if CallSql(e.f, [x, y.value]).Err? then Err(CallSql(e.f, [x, y.value]).error)
         else Finish(steps, done + [CallSql(e.f, [x, y.value]).value], scope))
  {
    var apply := steps + [Apply(e.f, 2)];
    BalancedSnoc(apply, Enter(e.args[1]), |done| + 1);
    BalancedSnoc(steps, Apply(e.f, 2), |done| + 2);
    FinishEnter(apply, e.args[1], done + [x], scope);
    var y := Translate(e.args[1], scope);
    if y.Ok? {
      var two := done + [x] + [y.value];
      FinishApply(steps, e.f, 2, two, scope);
      assert two[|done|..] == [x, y.value] && two[..|done|] == done;
    }
  }

  /** The two-stack loop. */
  method TranslateWithStacks(e: Expr, scope: Scope) returns (r: Result<Typed>)
    ensures r == Translate(e, scope)
  {
    var steps: seq<Step>, done: seq<Typed> := [Enter(e)], [];
    BalancedSnoc([], Enter(e), 0);
    FinishEnter([], e, [], scope);
    ghost var whole := Finish([] + [Enter(e)], [], scope);
    assert [] + [Enter(e)] == [Enter(e)];
    while steps != []
      invariant Balanced(steps, |done|) && Finish(steps, done, scope) == whole
      decreases Work(steps)
    {
      var step := steps[|steps| - 1];
      var rest := steps[..|steps| - 1];
      assert steps == rest + [step];
      WorkSnoc(rest, step);
      match step {
        case Enter(x) =>
          FinishEnter(rest, x, done, scope);
          if IsOperator(x) {
            if |x.args| != (if x.f == Not then 1 else 2) {
              return Err(InvalidExpression);
            }
            PushedFinish(rest, x, done, scope);
            steps := Pushed(rest, x);
          } else {
            var leaf := Leaf(x, scope);
            if leaf.Err? {
              return leaf;
            }
            steps, done := rest, done + [leaf.value];
          }
        case Apply(f, len) =>
          FinishApply(rest, f, len, done, scope);
          var call := CallSql(f, done[|done| - len..]);
          if call.Err? {
            return call;
          }
          steps, done := rest, done[..|done| - len] + [call.value];
      }
    }
    return Ok(done[|done| - 1]);
  }

  // ------------------------------------------------------------------------ meaning

  const TWO63: int := 0x8000_0000_0000_0000
  const TWO64: int := 0x1_0000_0000_0000_0000

  predicate IsCell(n: int) {
    -TWO63 <= n < TWO63
  }

  /** 64-bit wrap-around of a sum or difference of two cells. */
  function Wrap(n: int): int {
    if n >= TWO63 then n - TWO64 else if n < -TWO63 then n + TWO64 else n
  }

  /** SQL's remainder truncates toward zero. */
  function Remainder(n: int, m: int): int
    requires m > 0
  {
    if n >= 0 then n % m else -((-n) % m)
  }

  /** The HUGEINT expression the translator writes for a sum or difference. */
  function Hugeint(n: int): int {
    Remainder(Remainder(n + TWO63, TWO64) + TWO64, TWO64) - TWO63
  }

  lemma RemainderSteps(n: int)
    requires -2 * TWO64 < n < 2 * TWO64
    ensures n >= 0 ==> n % TWO64 == if n < TWO64 then n else n - TWO64
    ensures n < 0 ==> (-n) % TWO64 == if -n < TWO64 then -n else -n - TWO64
  {
  }

  /** The formula wraps exactly as 64-bit arithmetic does, and stays far inside the
      128 bits it is computed in. */
  lemma HugeintWraps(x: int, y: int, add: bool)
    requires IsCell(x) && IsCell(y)
    ensures
      var n := if add then x + y else x - y;
      && Hugeint(n) == Wrap(n) && IsCell(Wrap(n))
      && -2 * TWO64 < n + TWO63 < 2 * TWO64
      && -2 * TWO64 < Remainder(n + TWO63, TWO64) + TWO64 < 2 * TWO64
  {
    var n := if add then x + y else x - y;
    RemainderSteps(n + TWO63);
    var r := Remainder(n + TWO63, TWO64) + TWO64;
    RemainderSteps(r);
  }

  // --------------------------------------------------------------------- sort keys

  function Order(a: int, b: int): int {
    if a < b then -1 else if a > b then 1 else 0
  }

  /** Texts compare code unit by code unit. */
  function CompareKeys(s: seq<int>, t: seq<int>): int {
    if s == [] then (if t == [] then 0 else -1)
    else if t == [] then 1
    else if s[0] != t[0] then Order(s[0], t[0])
    else CompareKeys(s[1..], t[1..])
  }

  lemma {:induction false} CompareKeysZero(s: seq<int>, t: seq<int>)
    ensures CompareKeys(s, t) == 0 <==> s == t
  {
    if s != [] && t != [] {
      CompareKeysZero(s[1..], t[1..]);
      assert s == [s[0]] + s[1..] && t == [t[0]] + t[1..];
    }
  }

  /** `n` in `width` hexadecimal digits. */
  function Hex(n: nat, width: nat): (digits: seq<int>)
    ensures |digits| == width
  {
    if width == 0 then [] else Hex(n / 16, width - 1) + [n % 16]
  }

  lemma {:induction false} CompareKeysSnoc(s: seq<int>, t: seq<int>, a: int, b: int)
    requires |s| == |t|
    ensures CompareKeys(s + [a], t + [b]) == if s == t then Order(a, b) else CompareKeys(s, t)
  {
    if s == [] {
      assert [a][1..] == [] && [b][1..] == [];
    } else {
      assert (s + [a])[1..] == s[1..] + [a] && (t + [b])[1..] == t[1..] + [b];
      CompareKeysSnoc(s[1..], t[1..], a, b);
      assert s == [s[0]] + s[1..] && t == [t[0]] + t[1..];
    }
  }

  /** Numbers of one width order as their digits do. */
  lemma {:induction false} HexOrder(m: nat, n: nat, width: nat)
    requires m < Pow16(width) && n < Pow16(width)
    ensures CompareKeys(Hex(m, width), Hex(n, width)) == Order(m, n)
  {
    if width > 0 {
      HexOrder(m / 16, n / 16, width - 1);
      CompareKeysZero(Hex(m / 16, width - 1), Hex(n / 16, width - 1));
      CompareKeysSnoc(Hex(m / 16, width - 1), Hex(n / 16, width - 1), m % 16, n % 16);
    }
  }

  /** The dictionary: the texts, the stored sort key of every known term, and the
      engines' own order of known terms. */
  datatype Dictionary = Dictionary(text: int -> seq<int>, sortKey: map<int, seq<int>>, rank: int -> int)

  /** Cells of a kind are interned once, and stored keys, which never start with the
      tag of an atom, order known terms as the engines do. */
  ghost predicate Interned(dict: Dictionary) {
    && (forall x, y | dict.text(x) == dict.text(y) :: x == y)
    && (forall x | x in dict.sortKey :: dict.sortKey[x] != [] && dict.sortKey[x][0] > 0)
    && (forall x, y | x in dict.sortKey && y in dict.sortKey ::
          && CompareKeys(dict.sortKey[x], dict.sortKey[y]) == Order(dict.rank(x), dict.rank(y))
          && (dict.rank(x) == dict.rank(y) ==> x == y))
  }

  /** `ordered` of a term cell: its stored key, or the atom tag and the cell in hex. */
  function TermKey(x: int, dict: Dictionary): seq<int> {
    if x in dict.sortKey then dict.sortKey[x]
    else [0] + Hex(if IsCell(x) then x + TWO63 else 0, 16)
  }

  /** The engines' order of terms: unknown ids first, by number, then known terms. */
  function CompareTerms(x: int, y: int, dict: Dictionary): int {
    if x == y then 0
    else if x in dict.sortKey && y in dict.sortKey then Order(dict.rank(x), dict.rank(y))
    else if x in dict.sortKey then 1
    else if y in dict.sortKey then -1
    else Order(x, y)
  }

  /** Sort keys order cells as the engines order terms, known or not. */
  lemma TermKeyOrder(x: int, y: int, dict: Dictionary)
    requires IsCell(x) && IsCell(y) && Interned(dict)
    ensures CompareKeys(TermKey(x, dict), TermKey(y, dict)) == CompareTerms(x, y, dict)
  {
    if x !in dict.sortKey && y !in dict.sortKey {
      assert Pow16(16) == TWO64 by { Pow16Is64(); }
      HexOrder(x + TWO63, y + TWO63, 16);
      assert TermKey(x, dict)[1..] == Hex(x + TWO63, 16) && TermKey(y, dict)[1..] == Hex(y + TWO63, 16);
    } else if x in dict.sortKey && y in dict.sortKey {
      assert CompareKeys(dict.sortKey[x], dict.sortKey[y]) == Order(dict.rank(x), dict.rank(y));
    }
  }

  lemma Pow16Is64()
    ensures Pow16(16) == TWO64
  {
    assert Pow16(4) == 0x1_0000;
    assert Pow16(8) == 0x1_0000_0000;
    assert Pow16(12) == 0x1_0000_0000_0000;
  }

  // --------------------------------------------------------------------- evaluation

  function Truth(b: bool): int {
    if b then 1 else 0
  }

  predicate Holds(f: Func, order: int) {
    match f
    case Eq => order == 0
    case Ne => order != 0
    case Lt => order < 0
    case Le => order <= 0
    case Gt => order > 0
    case _ => order >= 0
  }

  /** A SQL value: a BIGINT, or a text to order by. */
  datatype Value = Num(n: int) | Key(k: seq<int>)

  function Cell(v: Value): int {
    if v.Num? then v.n else 0
  }

  function CompareValues(x: Value, y: Value): int {
    match (x, y)
    case (Num(a), Num(b)) => Order(a, b)
    case (Key(s), Key(t)) => CompareKeys(s, t)
    case (Num(_), Key(_)) => -1
    case (Key(_), Num(_)) => 1
  }

  function EvalSql(sql: Sql, row: seq<int>, dict: Dictionary): Value {
    match sql
    case Column(i) => Num(if i < |row| then row[i] else 0)
    case Number(n) => Num(n)
    case Wrapped(add, x, y) =>
      var a, b := Cell(EvalSql(x, row, dict)), Cell(EvalSql(y, row, dict));
      Num(Hugeint(if add then a + b else a - b))
    case IsZero(x) => Num(Truth(Cell(EvalSql(x, row, dict)) == 0))
    case BothNonZero(x, y) => Num(Truth(Cell(EvalSql(x, row, dict)) != 0 && Cell(EvalSql(y, row, dict)) != 0))
    case EitherNonZero(x, y) => Num(Truth(Cell(EvalSql(x, row, dict)) != 0 || Cell(EvalSql(y, row, dict)) != 0))
    case SortKey(ty, x) =>
      var cell := Cell(EvalSql(x, row, dict));
      Key(if ty == Text then dict.text(cell) else TermKey(cell, dict))
    case Comparison(op, x, y) => Num(Truth(Holds(op, CompareValues(EvalSql(x, row, dict), EvalSql(y, row, dict)))))
    case Ranks(op, a, b) => Num(Truth(Holds(op, Order(a, b))))
  }

  /** The engines' comparison of typed cells: kinds first, then integers, texts and
      terms by their own order. REAL and dynamically typed cells are never compared
      within their kind by an accepted expression. */
  function CompareCells(xt: Ty, x: int, yt: Ty, y: int, dict: Dictionary): int {
    if Rank(xt) != Rank(yt) then Order(Rank(xt), Rank(yt))
    else if xt == Text then CompareKeys(dict.text(x), dict.text(y))
    else if xt == Id then CompareTerms(x, y, dict)
    else Order(x, y)
  }

  type TypedCell = (int, Ty)

  function EvalLeaf(e: Expr, row: seq<int>, scope: Scope): TypedCell {
    match e
    case Col(c) => if c < |row| && c < |scope.types| then (row[c], scope.types[c]) else (0, Int)
    case Lit(n) => (n, Int)
    case TextCell(t) => if t < |scope.texts| then (scope.texts[t], Text) else (0, Text)
    case TermCell(t) => if t < |scope.terms| then (scope.terms[t], Id) else (0, Id)
    case Call(_, _) => (scope.nil, Text)
  }

  function EvalCall(f: Func, a: seq<TypedCell>, dict: Dictionary): TypedCell
    requires |a| == Arity(f) && f != StrNil
  {
    if f == Not then (Truth(a[0].0 == 0), Int)
    else if f == Add then (Wrap(a[0].0 + a[1].0), Int)
    else if f == Sub then (Wrap(a[0].0 - a[1].0), Int)
    else if f == And then (Truth(a[0].0 != 0 && a[1].0 != 0), Int)
    else if f == Or then (Truth(a[0].0 != 0 || a[1].0 != 0), Int)
    else if f == TermLt then (Truth(CompareTerms(a[0].0, a[1].0, dict) < 0), Int)
    else (Truth(Holds(f, CompareCells(a[0].1, a[0].0, a[1].1, a[1].0, dict))), Int)
  }

  /** The engines' scalar semantics, without arithmetic on REAL cells. */
  function EvalExpr(e: Expr, row: seq<int>, scope: Scope, dict: Dictionary): TypedCell {
    if !IsOperator(e) || |e.args| != Arity(e.f) then EvalLeaf(e, row, scope)
    else if Arity(e.f) == 1 then EvalCall(e.f, [EvalExpr(e.args[0], row, scope, dict)], dict)
    else EvalCall(e.f, [EvalExpr(e.args[0], row, scope, dict), EvalExpr(e.args[1], row, scope, dict)], dict)
  }

  function OneIf(b: bool): TypedCell {
    (if b then 1 else 0, Int)
  }

  /** `n` is where `s` ends, or where it first differs from `t` by a smaller code unit. */
  predicate SmallerAt(s: seq<int>, t: seq<int>, n: nat) {
    n <= |s| && n < |t| && s[..n] == t[..n] && (n < |s| ==> s[n] < t[n])
  }

  ghost predicate TextBefore(s: seq<int>, t: seq<int>) {
    exists n: nat :: SmallerAt(s, t, n)
  }

  /** Unknown ids first, by number, then known terms by rank. */
  predicate TermBefore(x: int, y: int, dict: Dictionary) {
    if x !in dict.sortKey then y in dict.sortKey || x < y
    else y in dict.sortKey && dict.rank(x) < dict.rank(y)
  }

  /** Numbers come before texts, texts before terms, terms before dynamic cells. */
  predicate KindBefore(x: Ty, y: Ty) {
    match x
    case Int => y == Text || y == Id || y == Any
    case Real => y == Text || y == Id || y == Any
    case Text => y == Id || y == Any
    case Id => y == Any
    case Any => false
  }

  ghost predicate CellBefore(x: TypedCell, y: TypedCell, dict: Dictionary) {
    if KindBefore(x.1, y.1) then true
    else if KindBefore(y.1, x.1) then false
    else if x.1 == Text then TextBefore(dict.text(x.0), dict.text(y.0))
    else if x.1 == Id then TermBefore(x.0, y.0, dict)
    else x.0 < y.0
  }

  lemma SmallerLater(s: seq<int>, t: seq<int>, n: nat)
    requires s != [] && t != [] && s[0] == t[0]
    ensures SmallerAt(s, t, n + 1) <==> SmallerAt(s[1..], t[1..], n)
  {
    if n < |s| && n < |t| {
      assert s[..n + 1] == [s[0]] + s[1..][..n] && t[..n + 1] == [t[0]] + t[1..][..n];
      assert s[..n + 1][1..] == s[1..][..n] && t[..n + 1][1..] == t[1..][..n];
    }
  }

  lemma BeforeLater(s: seq<int>, t: seq<int>)
    requires s != [] && t != [] && s[0] == t[0]
    ensures TextBefore(s, t) <==> TextBefore(s[1..], t[1..])
  {
    forall n: nat ensures SmallerAt(s, t, n + 1) <==> SmallerAt(s[1..], t[1..], n) { SmallerLater(s, t, n); }
    if n: nat :| SmallerAt(s, t, n) {
      assert n > 0;
      assert SmallerAt(s[1..], t[1..], n - 1);
    }
    if n: nat :| SmallerAt(s[1..], t[1..], n) {
      assert SmallerAt(s, t, n + 1);
    }
  }

  lemma SmallerHead(s: seq<int>, t: seq<int>, n: nat)
    requires SmallerAt(s, t, n)
    ensures n == 0 || (s != [] && s[0] == t[0])
  {
    if n > 0 {
      assert s[..n][0] == s[0] && t[..n][0] == t[0];
    }
  }

  lemma BeforeNow(s: seq<int>, t: seq<int>)
    requires s == [] || t == [] || s[0] != t[0]
    ensures TextBefore(s, t) <==> t != [] && (s == [] || s[0] < t[0])
  {
    if n: nat :| SmallerAt(s, t, n) {
      SmallerHead(s, t, n);
    }
    if t != [] && (s == [] || s[0] < t[0]) {
      assert SmallerAt(s, t, 0);
    }
  }

  lemma {:induction false} KeysBefore(s: seq<int>, t: seq<int>)
    ensures CompareKeys(s, t) < 0 <==> TextBefore(s, t)
    ensures CompareKeys(s, t) > 0 <==> TextBefore(t, s)
  {
    if s != [] && t != [] && s[0] == t[0] {
      KeysBefore(s[1..], t[1..]);
      BeforeLater(s, t);
      BeforeLater(t, s);
    } else {
      BeforeNow(s, t);
      BeforeNow(t, s);
    }
  }

  lemma CellsBefore(x: TypedCell, y: TypedCell, dict: Dictionary)
    ensures CompareCells(x.1, x.0, y.1, y.0, dict) < 0 <==> CellBefore(x, y, dict)
    ensures CompareCells(x.1, x.0, y.1, y.0, dict) > 0 <==> CellBefore(y, x, dict)
  {
    KeysBefore(dict.text(x.0), dict.text(y.0));
  }

  /** What the engines' calls give, in terms of the cells and which comes before. */
  lemma CallGives(f: Func, x: TypedCell, y: TypedCell, dict: Dictionary)
    requires Arity(f) == 2 && f != StrNil && IsCell(x.0) && IsCell(y.0)
    ensures
      var cell := EvalCall(f, [x, y], dict);
      match f
      case Eq => cell == OneIf(!CellBefore(x, y, dict) && !CellBefore(y, x, dict))
      case Ne => cell == OneIf(CellBefore(x, y, dict) || CellBefore(y, x, dict))
      case Lt => cell == OneIf(CellBefore(x, y, dict))
      case Le => cell == OneIf(!CellBefore(y, x, dict))
      case Gt => cell == OneIf(CellBefore(y, x, dict))
      case Ge => cell == OneIf(!CellBefore(x, y, dict))
      case And => cell == OneIf(x.0 != 0 && y.0 != 0)
      case Or => cell == OneIf(x.0 != 0 || y.0 != 0)
      case TermLt => cell == OneIf(TermBefore(x.0, y.0, dict))
      case Add => cell.1 == Int && IsCell(cell.0) && (cell.0 - x.0 - y.0) % TWO64 == 0
      case Sub => cell.1 == Int && IsCell(cell.0) && (cell.0 - x.0 + y.0) % TWO64 == 0
      case _ => true
    ensures EvalCall(Not, [x], dict) == OneIf(x.0 == 0)
  {
    CellsBefore(x, y, dict);
  }

  predicate CellScope(scope: Scope, row: seq<int>) {
    && |row| == |scope.types| && IsCell(scope.nil)
    && (forall i | 0 <= i < |row| :: IsCell(row[i]))
    && (forall i | 0 <= i < |scope.texts| :: IsCell(scope.texts[i]))
    && (forall i | 0 <= i < |scope.terms| :: IsCell(scope.terms[i]))
  }

  /** Literals are 64-bit cells. */
  predicate CellLiterals(e: Expr) {
    match e
    case Lit(n) => IsCell(n)
    case Call(_, args) => forall i | 0 <= i < |args| :: CellLiterals(args[i])
    case _ => true
  }

  predicate IsBigint(v: Value) {
    v.Num? && IsCell(v.n)
  }

  lemma CompareMeans(f: Func, x: Typed, y: Typed, row: seq<int>, dict: Dictionary)
    requires Compares(f) && Interned(dict) && CompareSql(f, x, y).Ok?
    requires IsBigint(EvalSql(x.0, row, dict)) && IsBigint(EvalSql(y.0, row, dict))
    ensures EvalSql(CompareSql(f, x, y).value.0, row, dict) ==
            Num(Truth(Holds(f,
                            CompareCells(x.1, Cell(EvalSql(x.0, row, dict)), y.1, Cell(EvalSql(y.0, row, dict)),
                                         dict))))
  {
    var a, b := Cell(EvalSql(x.0, row, dict)), Cell(EvalSql(y.0, row, dict));
    if Rank(x.1) == Rank(y.1) {
      if (f == Eq || f == Ne) && x.1 == y.1 && !Inexact(x.1) {
        EqualityMeans(x.1, a, b, dict);
      } else if x.1 == Id {
        TermKeyOrder(a, b, dict);
      }
    }
  }

  /** Cells of a kind are equal exactly when they compare equal. */
  lemma EqualityMeans(ty: Ty, a: int, b: int, dict: Dictionary)
    requires IsCell(a) && IsCell(b) && Interned(dict)
    ensures CompareCells(ty, a, ty, b, dict) == 0 <==> a == b
  {
    CompareKeysZero(dict.text(a), dict.text(b));
  }

  /** What translated arguments evaluate to. */
  function Cells(a: seq<Typed>, row: seq<int>, dict: Dictionary): (cells: seq<TypedCell>)
    ensures |cells| == |a| && forall i | 0 <= i < |a| :: cells[i] == (Cell(EvalSql(a[i].0, row, dict)), a[i].1)
  {
    seq(|a|, i requires 0 <= i < |a| => (Cell(EvalSql(a[i].0, row, dict)), a[i].1))
  }

  /** A translated expression evaluates to a cell, and to the given one. */
  predicate Means(t: Typed, cell: TypedCell, row: seq<int>, dict: Dictionary) {
    EvalSql(t.0, row, dict) == Num(cell.0) && t.1 == cell.1 && IsCell(cell.0)
  }

  lemma CallMeans(f: Func, a: seq<Typed>, row: seq<int>, dict: Dictionary)
    requires f != StrNil && |a| == Arity(f) && CallSql(f, a).Ok? && Interned(dict)
    requires forall i | 0 <= i < |a| :: IsBigint(EvalSql(a[i].0, row, dict))
    ensures Means(CallSql(f, a).value, EvalCall(f, Cells(a, row, dict), dict), row, dict)
  {
    if f == Add || f == Sub {
      ArithmeticMeans(f, a, row, dict);
    } else if Compares(f) {
      ComparisonMeans(f, a, row, dict);
    } else if f == TermLt {
      TermLtMeans(a, row, dict);
    }
  }

  lemma ArithmeticMeans(f: Func, a: seq<Typed>, row: seq<int>, dict: Dictionary)
    requires (f == Add || f == Sub) && |a| == 2 && CallSql(f, a).Ok?
    requires forall i | 0 <= i < |a| :: IsBigint(EvalSql(a[i].0, row, dict))
    ensures Means(CallSql(f, a).value, EvalCall(f, Cells(a, row, dict), dict), row, dict)
  {
    var x, y := a[0].0, a[1].0;
    assert CallSql(f, a).value == (Wrapped(f == Add, x, y), Int);
    HugeintWraps(Cell(EvalSql(x, row, dict)), Cell(EvalSql(y, row, dict)), f == Add);
  }

  lemma ComparisonMeans(f: Func, a: seq<Typed>, row: seq<int>, dict: Dictionary)
    requires Compares(f) && |a| == 2 && CallSql(f, a).Ok? && Interned(dict)
    requires forall i | 0 <= i < |a| :: IsBigint(EvalSql(a[i].0, row, dict))
    ensures Means(CallSql(f, a).value, EvalCall(f, Cells(a, row, dict), dict), row, dict)
  {
    assert CallSql(f, a) == CompareSql(f, a[0], a[1]);
    CompareMeans(f, a[0], a[1], row, dict);
  }

  lemma TermLtMeans(a: seq<Typed>, row: seq<int>, dict: Dictionary)
    requires |a| == 2 && Interned(dict)
    requires forall i | 0 <= i < |a| :: IsBigint(EvalSql(a[i].0, row, dict))
    ensures CallSql(TermLt, a).Ok?
    ensures Means(CallSql(TermLt, a).value, EvalCall(TermLt, Cells(a, row, dict), dict), row, dict)
  {
    assert CallSql(TermLt, a).value == (Comparison(Lt, SortKey(Id, a[0].0), SortKey(Id, a[1].0)), Int);
    TermKeyOrder(Cell(EvalSql(a[0].0, row, dict)), Cell(EvalSql(a[1].0, row, dict)), dict);
  }

  /** Whatever the translator accepts, its SQL computes what the engines compute, and
      the type it reports is theirs. */
  lemma {:induction false} TranslationPreservesMeaning(e: Expr, scope: Scope, row: seq<int>, dict: Dictionary)
    requires CellScope(scope, row) && CellLiterals(e) && Interned(dict) && Translate(e, scope).Ok?
    ensures Means(Translate(e, scope).value, EvalExpr(e, row, scope, dict), row, dict)
  {
    if IsOperator(e) {
      TranslationPreservesMeaning(e.args[0], scope, row, dict);
      var x := Translate(e.args[0], scope).value;
      if Arity(e.f) == 1 {
        CallMeans(e.f, [x], row, dict);
        assert [EvalExpr(e.args[0], row, scope, dict)] == Cells([x], row, dict);
      } else {
        TranslationPreservesMeaning(e.args[1], scope, row, dict);
        var y := Translate(e.args[1], scope).value;
        CallMeans(e.f, [x, y], row, dict);
        assert [EvalExpr(e.args[0], row, scope, dict), EvalExpr(e.args[1], row, scope, dict)] ==
               Cells([x, y], row, dict);
      }
    }
  }
}

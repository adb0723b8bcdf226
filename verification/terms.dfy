/** The term dictionary of the generated runtime: minting ids for terms and texts,
    and the structural order of ids. */
module Terms {

  datatype Ty = Int | Id

  datatype Term = Text(text: string) | Compound(functor: string, args: seq<int>, types: seq<Ty>)

  /** What a lookup in the text index answers: an id, or a property that every
      object inherits. */
  datatype Answer = Minted(id: int) | Inherited(name: string)

  /** The dictionary's contents: terms by id, and the two indexes. */
  datatype Dictionary = Dictionary(next: nat, byId: map<int, Term>, byKey: map<(string, seq<int>), int>,
                                   byText: map<string, int>)

  // -------------------------------------------------------------------- bijection

  /** Ids are 1 to `next`; each index inverts `byId`. */
  ghost predicate Bijective(d: Dictionary) {
    && (forall id :: id in d.byId <==> 0 < id <= d.next)
    && (forall k | k in d.byKey :: d.byKey[k] in d.byId && IsCompound(d.byId[d.byKey[k]], k.0, k.1))
    && (forall t | t in d.byText :: d.byText[t] in d.byId && d.byId[d.byText[t]] == Text(t))
    && (forall id | id in d.byId :: Indexed(d, id))
  }

  predicate IsCompound(x: Term, functor: string, args: seq<int>) {
    x.Compound? && x.functor == functor && x.args == args && |x.types| == |args|
  }

  ghost predicate Indexed(d: Dictionary, id: int)
    requires id in d.byId
  {
    match d.byId[id]
    case Text(t) => t in d.byText && d.byText[t] == id
    case Compound(f, args, types) => |types| == |args| && (f, args) in d.byKey && d.byKey[(f, args)] == id
  }

  /** Arguments of type Id were minted before the term that holds them. */
  ghost predicate Grounded(byId: map<int, Term>) {
    forall id | id in byId && byId[id].Compound? :: id > 0 && GroundedArgs(byId[id].args, byId[id].types, id)
  }

  predicate GroundedArgs(args: seq<int>, types: seq<Ty>, id: int) {
    |types| == |args| && forall i | 0 <= i < |args| && types[i] == Id :: args[i] < id
  }

  function WithTerm(d: Dictionary, functor: string, args: seq<int>, types: seq<Ty>): Dictionary {
    var id := d.next + 1;
    Dictionary(id, d.byId[id := Compound(functor, args, types)], d.byKey[(functor, args) := id], d.byText)
  }

  function WithText(d: Dictionary, text: string): Dictionary {
    var id := d.next + 1;
    Dictionary(id, d.byId[id := Text(text)], d.byKey, d.byText[text := id])
  }

  lemma WithTermBijective(d: Dictionary, functor: string, args: seq<int>, types: seq<Ty>)
    requires Bijective(d) && (functor, args) !in d.byKey && |types| == |args|
    ensures Bijective(WithTerm(d, functor, args, types))
    ensures Grounded(d.byId) && GroundedArgs(args, types, d.next + 1) ==>
              Grounded(WithTerm(d, functor, args, types).byId)
  {
    var e := WithTerm(d, functor, args, types);
    forall id | id in e.byId ensures Indexed(e, id) {
      if id != e.next {
        assert Indexed(d, id);
      }
    }
  }

  lemma WithTextBijective(d: Dictionary, text: string)
    requires Bijective(d) && text !in d.byText
    ensures Bijective(WithText(d, text))
    ensures Grounded(d.byId) ==> Grounded(WithText(d, text).byId)
  {
    var e := WithText(d, text);
    forall id | id in e.byId ensures Indexed(e, id) {
      if id != e.next {
        assert Indexed(d, id);
      }
    }
  }

  /** Everything `d` knew is known to `e` under the same id. */
  predicate Keeps(d: Dictionary, e: Dictionary) {
    forall id | id in d.byId :: id in e.byId && e.byId[id] == d.byId[id]
  }

  class Runtime {
    /** The property names every plain object answers to. */
    const inherited: set<string>
    var d: Dictionary

    constructor (inherited: set<string>)
      ensures Valid() && Grounded(d.byId) && d == Dictionary(0, map[], map[], map[]) && this.inherited == inherited
    {
      this.inherited := inherited;
      d := Dictionary(0, map[], map[], map[]);
    }

    ghost predicate Valid()
      reads this
    {
      Bijective(d) && forall t | t in d.byText :: t !in inherited
    }

    /** Intern a compound term. Its index key starts with a bracket, so no inherited
        name can answer for it. */
    method Mint(functor: string, args: seq<int>, types: seq<Ty>) returns (id: int)
      requires Valid() && |types| == |args|
      modifies this
      ensures Valid() && Keeps(old(d), d) && id in d.byId && IsCompound(d.byId[id], functor, args)
      ensures (functor, args) in old(d).byKey ==> d == old(d)
      ensures old(Grounded(d.byId)) && GroundedArgs(args, types, old(d).next + 1) ==> Grounded(d.byId)
    {
      if (functor, args) in d.byKey {
        return d.byKey[(functor, args)];
      }
      WithTermBijective(d, functor, args, types);
      d := WithTerm(d, functor, args, types);
      id := d.next;
    }

    /** Intern a text; an inherited property answers in place of an id. */
    method MintText(value: string) returns (answer: Answer)
      requires Valid()
      modifies this
      ensures Valid() && Keeps(old(d), d) && TextAnswer(d, inherited, value, answer)
      ensures old(Grounded(d.byId)) ==> Grounded(d.byId)
      ensures value in inherited || value in old(d).byText ==> d == old(d)
    {
      if value in d.byText {
        return Minted(d.byText[value]);
      }
      if value in inherited {
        return Inherited(value);
      }
      WithTextBijective(d, value);
      d := WithText(d, value);
      return Minted(d.next);
    }

    /** The first texts of a program, with their ids. */
    method InitialTerms(texts: seq<string>, needsEmpty: bool) returns (literals: seq<Answer>)
      requires Valid() && Grounded(d.byId)
      modifies this
      ensures Valid() && Grounded(d.byId) && Keeps(old(d), d)
      ensures |literals| == |texts| && forall i | 0 <= i < |texts| :: TextAnswer(d, inherited, texts[i], literals[i])
    {
      literals := [];
      if needsEmpty {
        var empty := MintText("");
      }
      for i := 0 to |texts|
        invariant Valid() && Grounded(d.byId) && Keeps(old(d), d) && |literals| == i
        invariant forall j | 0 <= j < i :: TextAnswer(d, inherited, texts[j], literals[j])
      {
        var answer := MintText(texts[i]);
        literals := literals + [answer];
      }
    }
  }

  /** A text gets an id exactly when it is no inherited property name. */
  ghost predicate TextAnswer(d: Dictionary, inherited: set<string>, text: string, answer: Answer) {
    if text in inherited then answer == Inherited(text)
    else answer.Minted? && answer.id in d.byId && d.byId[answer.id] == Text(text)
  }

  /** Two ids never stand for the same term or text. */
  lemma DistinctIds(d: Dictionary, a: int, b: int)
    requires Bijective(d) && a in d.byId && b in d.byId
    requires match (d.byId[a], d.byId[b])
             case (Text(s), Text(t)) => s == t
             case (Compound(f, x, _), Compound(g, y, _)) => f == g && x == y
             case _ => false
    ensures a == b
  {
    assert Indexed(d, a) && Indexed(d, b);
  }

  // ------------------------------------------------------------------------- order

  /** Code units in order. */
  function CompareText(s: string, t: string): int {
    if s == "" then (if t == "" then 0 else -1)
    else if t == "" then 1
    else if s[0] != t[0] then (if s[0] < t[0] then -1 else 1)
    else CompareText(s[1..], t[1..])
  }

  function Size(byId: map<int, Term>, a: int): nat {
    if a in byId && a > 0 then a else 0
  }

  /** `termCompare`. Unknown ids come first, in numeric order; then texts; then
      compound terms by arity, functor and arguments. */
  function Compare(byId: map<int, Term>, a: int, b: int): int
    requires Grounded(byId)
    decreases Size(byId, a) + Size(byId, b), 1, 0
  {
    if a == b then 0
    else if a !in byId || b !in byId then
      (if a !in byId && b !in byId then a - b else if a in byId then 1 else -1)
    else
      var x, y := byId[a], byId[b];
      if x.Text? || y.Text? then
        (if !x.Text? then 1 else if !y.Text? then -1 else CompareText(x.text, y.text))
      else if |x.args| != |y.args| then |x.args| - |y.args|
      else if x.functor != y.functor then (if CompareText(x.functor, y.functor) < 0 then -1 else 1)
      else CompareArgs(byId, a, b, 0)
  }

  /** The arguments from position `i` on: the first that differ decide. */
  function CompareArgs(byId: map<int, Term>, a: int, b: int, i: nat): int
    requires Grounded(byId) && a in byId && b in byId
    requires byId[a].Compound? && byId[b].Compound? && |byId[a].args| == |byId[b].args|
    decreases Size(byId, a) + Size(byId, b), 0, |byId[a].args| - i
  {
    if i >= |byId[a].args| then 0
    else
      var order := CompareArg(byId, a, b, i);
      if order != 0 then order else CompareArgs(byId, a, b, i + 1)
  }

  function CompareArg(byId: map<int, Term>, a: int, b: int, i: nat): int
    requires Grounded(byId) && a in byId && b in byId
    requires byId[a].Compound? && byId[b].Compound? && |byId[a].args| == |byId[b].args| && i < |byId[a].args|
    decreases Size(byId, a) + Size(byId, b), 0, 0
  {
    var x, y := byId[a], byId[b];
    if x.types[i] == Id && y.types[i] == Id then Compare(byId, x.args[i], y.args[i])
    else if x.types[i] != y.types[i] then (if x.types[i] == Int then -1 else 1)
    else x.args[i] - y.args[i]
  }

  // ----------------------------------------------------------------- order: the proof

  lemma {:induction false} CompareTextZero(s: string, t: string)
    ensures CompareText(s, t) == 0 <==> s == t
    ensures CompareText(s, t) < 0 <==> CompareText(t, s) > 0
    ensures CompareText(s, t) > 0 <==> CompareText(t, s) < 0
  {
    if s != "" && t != "" {
      CompareTextZero(s[1..], t[1..]);
      assert s == [s[0]] + s[1..] && t == [t[0]] + t[1..];
    }
  }

  lemma {:induction false} CompareTextTransitive(s: string, t: string, u: string)
    requires CompareText(s, t) < 0 && CompareText(t, u) < 0
    ensures CompareText(s, u) < 0
  {
    if s != "" && t != "" && u != "" && s[0] == t[0] == u[0] {
      CompareTextTransitive(s[1..], t[1..], u[1..]);
    }
  }

  /** No two ids stand for the same term: what the dictionary's bijection gives. */
  ghost predicate Unambiguous(byId: map<int, Term>) {
    forall a, b | a in byId && b in byId && a != b :: Differ(byId[a], byId[b])
  }

  predicate Differ(x: Term, y: Term) {
    match (x, y)
    case (Text(s), Text(t)) => s != t
    case (Compound(f, v, _), Compound(g, w, _)) => f != g || v != w
    case _ => true
  }

  lemma BijectiveIsUnambiguous(d: Dictionary)
    requires Bijective(d)
    ensures Unambiguous(d.byId)
  {
    forall a, b | a in d.byId && b in d.byId && a != b ensures Differ(d.byId[a], d.byId[b]) {
      assert Indexed(d, a) && Indexed(d, b);
    }
  }

  /** Both terms are compound, of one arity. */
  predicate SameArity(byId: map<int, Term>, a: int, b: int) {
    a in byId && b in byId && byId[a].Compound? && byId[b].Compound? && |byId[a].args| == |byId[b].args|
  }

  /** Equal means the same id, and the order is antisymmetric. */
  lemma {:induction false} CompareZero(byId: map<int, Term>, a: int, b: int)
    requires Grounded(byId) && Unambiguous(byId)
    ensures Compare(byId, a, b) == 0 <==> a == b
    ensures Compare(byId, a, b) < 0 <==> Compare(byId, b, a) > 0
    ensures Compare(byId, a, b) > 0 <==> Compare(byId, b, a) < 0
    decreases Size(byId, a) + Size(byId, b), 1, 0
  {
    if a != b && a in byId && b in byId {
      var x, y := byId[a], byId[b];
      assert Differ(x, y);
      if x.Text? && y.Text? {
        CompareTextZero(x.text, y.text);
      } else if x.Compound? && y.Compound? {
        CompareTextZero(x.functor, y.functor);
        if |x.args| == |y.args| && x.functor == y.functor {
          DifferSomewhere(x.args, y.args);
          ArgsZero(byId, a, b, 0);
        }
      }
    }
  }

  lemma DifferSomewhere(x: seq<int>, y: seq<int>)
    requires |x| == |y| && x != y
    ensures exists j :: 0 <= j < |x| && x[j] != y[j]
  {
  }

  lemma {:induction false} ArgsZero(byId: map<int, Term>, a: int, b: int, i: nat)
    requires Grounded(byId) && Unambiguous(byId) && SameArity(byId, a, b)
    ensures CompareArgs(byId, a, b, i) == 0 ==> forall j | i <= j < |byId[a].args| :: byId[a].args[j] == byId[b].args[j]
    ensures CompareArgs(byId, a, b, i) < 0 <==> CompareArgs(byId, b, a, i) > 0
    ensures CompareArgs(byId, a, b, i) > 0 <==> CompareArgs(byId, b, a, i) < 0
    decreases Size(byId, a) + Size(byId, b), 0, |byId[a].args| - i
  {
    if i < |byId[a].args| {
      ArgZero(byId, a, b, i);
      ArgsZero(byId, a, b, i + 1);
    }
  }

  lemma {:induction false} ArgZero(byId: map<int, Term>, a: int, b: int, i: nat)
    requires Grounded(byId) && Unambiguous(byId) && SameArity(byId, a, b) && i < |byId[a].args|
    ensures CompareArg(byId, a, b, i) == 0 <==>
              byId[a].args[i] == byId[b].args[i] && byId[a].types[i] == byId[b].types[i]
    ensures CompareArg(byId, a, b, i) < 0 <==> CompareArg(byId, b, a, i) > 0
    ensures CompareArg(byId, a, b, i) > 0 <==> CompareArg(byId, b, a, i) < 0
    decreases Size(byId, a) + Size(byId, b), 0, 0
  {
    var x, y := byId[a], byId[b];
    if x.types[i] == Id && y.types[i] == Id {
      CompareZero(byId, x.args[i], y.args[i]);
    }
  }

  /** The order is transitive. */
  lemma {:induction false} CompareTransitive(byId: map<int, Term>, a: int, b: int, c: int)
    requires Grounded(byId) && Unambiguous(byId)
    requires Compare(byId, a, b) < 0 && Compare(byId, b, c) < 0
    ensures Compare(byId, a, c) < 0
    decreases Size(byId, a) + Size(byId, b) + Size(byId, c), 1, 0
  {
    CompareZero(byId, a, b);
    CompareZero(byId, b, c);
    CompareZero(byId, a, c);
    if a in byId && b in byId && c in byId {
      var x, y, z := byId[a], byId[b], byId[c];
      if x.Text? && y.Text? && z.Text? {
        CompareTextTransitive(x.text, y.text, z.text);
      } else if x.Compound? && y.Compound? && z.Compound? {
        CompoundTransitive(byId, a, b, c);
      }
    }
  }

  lemma {:induction false} CompoundTransitive(byId: map<int, Term>, a: int, b: int, c: int)
    requires Grounded(byId) && Unambiguous(byId) && a in byId && b in byId && c in byId && a != b && b != c && a != c
    requires byId[a].Compound? && byId[b].Compound? && byId[c].Compound?
    requires Compare(byId, a, b) < 0 && Compare(byId, b, c) < 0
    ensures Compare(byId, a, c) < 0
    decreases Size(byId, a) + Size(byId, b) + Size(byId, c), 0, |byId[a].args| + 1
  {
    var x, y, z := byId[a], byId[b], byId[c];
    if |x.args| == |y.args| == |z.args| {
      CompareTextZero(x.functor, y.functor);
      CompareTextZero(y.functor, z.functor);
      CompareTextZero(x.functor, z.functor);
      if x.functor == y.functor == z.functor {
        ArgsTransitive(byId, a, b, c, 0);
      } else if x.functor != y.functor && y.functor != z.functor {
        CompareTextTransitive(x.functor, y.functor, z.functor);
      }
    }
  }

  lemma {:induction false} ArgsTransitive(byId: map<int, Term>, a: int, b: int, c: int, i: nat)
    requires Grounded(byId) && Unambiguous(byId) && SameArity(byId, a, b) && SameArity(byId, b, c)
    requires CompareArgs(byId, a, b, i) < 0 && CompareArgs(byId, b, c, i) < 0
    ensures CompareArgs(byId, a, c, i) < 0
    decreases Size(byId, a) + Size(byId, b) + Size(byId, c), 0, |byId[a].args| - i
  {
    ArgZero(byId, a, b, i);
    ArgZero(byId, b, c, i);
    ArgZero(byId, a, c, i);
    var p, q := CompareArg(byId, a, b, i), CompareArg(byId, b, c, i);
    if p == 0 && q == 0 {
      ArgsTransitive(byId, a, b, c, i + 1);
    } else if p < 0 && q < 0 {
      ArgTransitive(byId, a, b, c, i);
    }
  }

  lemma {:induction false} ArgTransitive(byId: map<int, Term>, a: int, b: int, c: int, i: nat)
    requires Grounded(byId) && Unambiguous(byId) && SameArity(byId, a, b) && SameArity(byId, b, c) && i < |byId[a].args|
    requires CompareArg(byId, a, b, i) < 0 && CompareArg(byId, b, c, i) < 0
    ensures CompareArg(byId, a, c, i) < 0
    decreases Size(byId, a) + Size(byId, b) + Size(byId, c), 0, 0
  {
    var x, y, z := byId[a], byId[b], byId[c];
    if x.types[i] == Id && y.types[i] == Id && z.types[i] == Id {
      CompareTransitive(byId, x.args[i], y.args[i], z.args[i]);
    }
  }

  /** A dictionary whose ids were minted with grounded arguments orders ids strictly
      and totally. */
  lemma CompareIsStrictTotal(d: Dictionary, a: int, b: int, c: int)
    requires Bijective(d) && Grounded(d.byId)
    ensures Compare(d.byId, a, b) == 0 <==> a == b
    ensures Compare(d.byId, a, b) < 0 <==> Compare(d.byId, b, a) > 0
    ensures Compare(d.byId, a, b) < 0 && Compare(d.byId, b, c) < 0 ==> Compare(d.byId, a, c) < 0
  {
    BijectiveIsUnambiguous(d);
    CompareZero(d.byId, a, b);
    if Compare(d.byId, a, b) < 0 && Compare(d.byId, b, c) < 0 {
      CompareTransitive(d.byId, a, b, c);
    }
  }

  /** Minting later leaves the order of earlier ids alone. */
  lemma {:induction false} OrderIsStable(d: Dictionary, e: Dictionary, a: int, b: int)
    requires Bijective(d) && Grounded(d.byId) && Bijective(e) && Grounded(e.byId) && Keeps(d, e)
    requires a in d.byId && b in d.byId && Closed(d.byId)
    ensures Compare(e.byId, a, b) == Compare(d.byId, a, b)
    decreases Size(d.byId, a) + Size(d.byId, b), 1, 0
  {
    if a != b && SameArity(d.byId, a, b) {
      ArgsStable(d, e, a, b, 0);
    }
  }

  /** Arguments of type Id are known. */
  ghost predicate Closed(byId: map<int, Term>) {
    forall id | id in byId && byId[id].Compound? :: |byId[id].types| == |byId[id].args| && KnownArgs(byId, byId[id])
  }

  ghost predicate KnownArgs(byId: map<int, Term>, x: Term)
    requires x.Compound? && |x.types| == |x.args|
  {
    forall i | 0 <= i < |x.args| && x.types[i] == Id :: x.args[i] in byId
  }

  lemma {:induction false} ArgsStable(d: Dictionary, e: Dictionary, a: int, b: int, i: nat)
    requires Bijective(d) && Grounded(d.byId) && Bijective(e) && Grounded(e.byId) && Keeps(d, e) && Closed(d.byId)
    requires SameArity(d.byId, a, b)
    ensures CompareArgs(e.byId, a, b, i) == CompareArgs(d.byId, a, b, i)
    decreases Size(d.byId, a) + Size(d.byId, b), 0, |d.byId[a].args| - i
  {
    if i < |d.byId[a].args| {
      var x, y := d.byId[a], d.byId[b];
      assert KnownArgs(d.byId, x) && KnownArgs(d.byId, y);
      if x.types[i] == Id && y.types[i] == Id {
        OrderIsStable(d, e, x.args[i], y.args[i]);
      }
      ArgsStable(d, e, a, b, i + 1);
    }
  }

  // ------------------------------------------------------------- which term comes first

  /** At the first code unit where the texts differ, `s` has the smaller one or ends. */
  ghost predicate Before(s: string, t: string) {
    exists n: nat :: FirstDiffer(s, t, n) && n < |t| && (n < |s| ==> s[n] < t[n])
  }

  /** The texts agree on the first `n` code units and no further. */
  predicate FirstDiffer(s: string, t: string, n: nat) {
    n <= |s| && n <= |t| && s[..n] == t[..n] && (n < |s| && n < |t| ==> s[n] != t[n]) && (n < |s| || n < |t|)
  }

  lemma LaterDiffer(s: string, t: string, n: nat)
    requires s != "" && t != "" && s[0] == t[0]
    ensures FirstDiffer(s, t, n + 1) <==> FirstDiffer(s[1..], t[1..], n)
  {
    if n < |s| && n < |t| {
      assert s[..n + 1] == [s[0]] + s[1..][..n] && t[..n + 1] == [t[0]] + t[1..][..n];
      assert s[..n + 1][1..] == s[1..][..n] && t[..n + 1][1..] == t[1..][..n];
    }
  }

  lemma {:induction false} CompareTextBefore(s: string, t: string)
    ensures CompareText(s, t) < 0 <==> Before(s, t)
  {
    if s == "" {
      if t != "" {
        assert FirstDiffer(s, t, 0);
      }
    } else if t != "" {
      if s[0] != t[0] {
        assert s[0] < t[0] ==> FirstDiffer(s, t, 0);
        forall n: nat | FirstDiffer(s, t, n) ensures n == 0 {
          assert s[..n] == t[..n];
        }
      } else {
        CompareTextBefore(s[1..], t[1..]);
        forall n: nat ensures FirstDiffer(s, t, n + 1) <==> FirstDiffer(s[1..], t[1..], n) {
          LaterDiffer(s, t, n);
        }
        if Before(s, t) {
          var n: nat :| FirstDiffer(s, t, n) && n < |t| && (n < |s| ==> s[n] < t[n]);
          assert n > 0 && FirstDiffer(s[1..], t[1..], n - 1);
        }
        if Before(s[1..], t[1..]) {
          var n: nat :| FirstDiffer(s[1..], t[1..], n) && n < |t[1..]| && (n < |s[1..]| ==> s[1..][n] < t[1..][n]);
          assert FirstDiffer(s, t, n + 1);
        }
      }
    }
  }

  /** One argument comes first: terms by the order of terms, numbers by their value, and
      a number before a term. */
  ghost predicate ArgBefore(byId: map<int, Term>, x: Term, y: Term, i: nat)
    requires Grounded(byId) && x.Compound? && y.Compound?
    requires i < |x.args| == |y.args| && |x.types| == |x.args| && |y.types| == |y.args|
  {
    if x.types[i] == Id && y.types[i] == Id then Compare(byId, x.args[i], y.args[i]) < 0
    else if x.types[i] == y.types[i] then x.args[i] < y.args[i]
    else x.types[i] == Int
  }

  /** The arguments agree, in value and type, up to position `i`. */
  predicate ArgsAgree(x: Term, y: Term, from: nat, i: nat)
    requires x.Compound? && y.Compound?
    requires from <= i <= |x.args| == |y.args| && |x.types| == |x.args| && |y.types| == |y.args|
  {
    forall j | from <= j < i :: x.args[j] == y.args[j] && x.types[j] == y.types[j]
  }

  ghost predicate ArgsBefore(byId: map<int, Term>, x: Term, y: Term, from: nat)
    requires Grounded(byId) && x.Compound? && y.Compound?
    requires |x.args| == |y.args| && |x.types| == |x.args| && |y.types| == |y.args|
  {
    exists i: nat :: from <= i < |x.args| && ArgsAgree(x, y, from, i) && ArgBefore(byId, x, y, i)
  }

  lemma {:induction false} CompareArgsBefore(byId: map<int, Term>, a: int, b: int, from: nat)
    requires Grounded(byId) && Unambiguous(byId) && SameArity(byId, a, b)
    ensures CompareArgs(byId, a, b, from) < 0 <==> ArgsBefore(byId, byId[a], byId[b], from)
    decreases |byId[a].args| - from
  {
    var x, y := byId[a], byId[b];
    if from < |x.args| {
      ArgZero(byId, a, b, from);
      assert CompareArg(byId, a, b, from) < 0 <==> ArgBefore(byId, x, y, from) by {
        if x.types[from] == Id && y.types[from] == Id { CompareZero(byId, x.args[from], y.args[from]); }
      }
      if CompareArg(byId, a, b, from) < 0 {
        assert ArgsAgree(x, y, from, from);
      } else if CompareArg(byId, a, b, from) > 0 {
        forall i: nat | from <= i < |x.args| && ArgsAgree(x, y, from, i) ensures i == from {}
      } else {
        CompareArgsBefore(byId, a, b, from + 1);
        assert !ArgBefore(byId, x, y, from);
        forall i: nat | from < i < |x.args| ensures ArgsAgree(x, y, from, i) <==> ArgsAgree(x, y, from + 1, i) {}
        if ArgsBefore(byId, x, y, from) {
          var i: nat :| from <= i < |x.args| && ArgsAgree(x, y, from, i) && ArgBefore(byId, x, y, i);
          assert ArgsAgree(x, y, from + 1, i);
        }
        if ArgsBefore(byId, x, y, from + 1) {
          var i: nat :| from + 1 <= i < |x.args| && ArgsAgree(x, y, from + 1, i) && ArgBefore(byId, x, y, i);
          assert ArgsAgree(x, y, from, i);
        }
      }
    }
  }

  /** Texts come before compound terms, by code units; compound terms come by arity, then
      by functor, then by the first argument that differs. */
  ghost predicate TermBefore(byId: map<int, Term>, x: Term, y: Term)
    requires Grounded(byId) && (x.Compound? ==> |x.types| == |x.args|) && (y.Compound? ==> |y.types| == |y.args|)
  {
    match (x, y)
    case (Text(s), Text(t)) => Before(s, t)
    case (Text(_), Compound(_, _, _)) => true
    case (Compound(_, _, _), Text(_)) => false
    case (Compound(f, v, _), Compound(g, w, _)) =>
      || |v| < |w|
      || (|v| == |w| && f != g && Before(f, g))
      || (|v| == |w| && f == g && ArgsBefore(byId, x, y, 0))
  }

  /** Which of two ids comes first: unknown ids do, by their number; then terms. */
  lemma ComparesTerms(byId: map<int, Term>, a: int, b: int)
    requires Grounded(byId) && Unambiguous(byId) && a != b
    ensures a !in byId && b !in byId ==> (Compare(byId, a, b) < 0 <==> a < b)
    ensures a !in byId && b in byId ==> Compare(byId, a, b) < 0
    ensures a in byId && b !in byId ==> Compare(byId, a, b) > 0
    ensures a in byId && b in byId ==> (Compare(byId, a, b) < 0 <==> TermBefore(byId, byId[a], byId[b]))
  {
    if a in byId && b in byId {
      var x, y := byId[a], byId[b];
      if x.Text? && y.Text? {
        CompareTextBefore(x.text, y.text);
      } else if x.Compound? && y.Compound? {
        CompareTextBefore(x.functor, y.functor);
        if |x.args| == |y.args| {
          CompareArgsBefore(byId, a, b, 0);
        }
      }
    }
  }
}

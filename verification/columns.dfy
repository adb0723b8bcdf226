/** The column lexer over internal SQL fragments: `c<digits>` outside quotes is a
    column reference, everything else is text. ASCII only. */
module Columns {

  /** usize::MAX, which the lexer reports for text that is no column. */
  const MAX: nat := 0xFFFF_FFFF_FFFF_FFFF

  /** A visited slice, with its column number or MAX. */
  datatype Token = Token(text: string, column: nat)

  predicate IsDigit(c: char) {
    '0' <= c <= '9'
  }

  predicate IsWord(c: char) {
    IsDigit(c) || 'a' <= c <= 'z' || 'A' <= c <= 'Z' || c == '_'
  }

  predicate IsQuote(c: char) {
    c == '\'' || c == '"' || c == '`' || c == '['
  }

  function Close(open: char): char {
    if open == '[' then ']' else open
  }

  // ------------------------------------------------------------------------ numbers

  function Digit(d: nat): (c: char)
    requires d < 10
    ensures IsDigit(c)
  {
    ('0' as int + d) as char
  }

  function Decimal(n: nat): (s: string)
    ensures s != "" && forall i | 0 <= i < |s| :: IsDigit(s[i])
  {
    if n < 10 then [Digit(n)] else Decimal(n / 10) + [Digit(n % 10)]
  }

  function Number(s: string): nat
    requires forall i | 0 <= i < |s| :: IsDigit(s[i])
  {
    if s == "" then 0
    else
      assert IsDigit(s[|s| - 1]);
      10 * Number(s[..|s| - 1]) + (s[|s| - 1] as int - '0' as int)
  }

  lemma {:induction false} NumberOfDecimal(n: nat)
    ensures Number(Decimal(n)) == n
  {
    if n >= 10 {
      NumberOfDecimal(n / 10);
      assert Decimal(n)[..|Decimal(n)| - 1] == Decimal(n / 10);
    }
  }

  lemma DecimalInjective(m: nat, n: nat)
    requires Decimal(m) == Decimal(n)
    ensures m == n
  {
    NumberOfDecimal(m);
    NumberOfDecimal(n);
  }

  // -------------------------------------------------------------------------- lexer

  /** The first position from `i` on that is not inside the word. */
  function WordEnd(s: string, i: nat): (n: nat)
    requires i <= |s|
    ensures i <= n <= |s|
    ensures forall k | i <= k < n :: IsWord(s[k])
    ensures n < |s| ==> !IsWord(s[n])
    decreases |s| - i
  {
    if i < |s| && IsWord(s[i]) then WordEnd(s, i + 1) else i
  }

  /** Past the closing quote, or past the end when there is none. A doubled quote
      is part of the text, except in brackets. */
  function QuoteEnd(s: string, i: nat, close: char): (n: nat)
    ensures i < n
    ensures i <= |s| ==> n <= |s| + 2
    decreases |s| - i
  {
    if i >= |s| then i + 1
    else if s[i] == close then
      (if close != ']' && i + 1 < |s| && s[i + 1] == close then QuoteEnd(s, i + 2, close) else i + 1)
    else QuoteEnd(s, i + 1, close)
  }

  function Min(a: nat, b: nat): nat {
    if a < b then a else b
  }

  /** Length of the token a fragment starts with. */
  function TokenLength(s: string): (n: nat)
    requires s != ""
    ensures 0 < n <= |s|
  {
    if IsQuote(s[0]) then Min(QuoteEnd(s, 1, Close(s[0])), |s|)
    else if IsWord(s[0]) then WordEnd(s, 0)
    else 1
  }

  /** `c` and digits that fit a usize. */
  function ColumnOf(token: string): nat {
    if |token| > 1 && token[0] == 'c' && (forall i | 1 <= i < |token| :: IsDigit(token[i])) && Number(token[1..]) <= MAX
    then Number(token[1..]) else MAX
  }

  function Lex(s: string): (tokens: seq<Token>) {
    if s == "" then []
    else
      var n := TokenLength(s);
      [Token(s[..n], ColumnOf(s[..n]))] + Lex(s[n..])
  }

  function Texts(tokens: seq<Token>): string {
    if tokens == [] then "" else tokens[0].text + Texts(tokens[1..])
  }

  /** The visited tokens concatenate to the input. */
  lemma {:induction false} Lossless(s: string)
    ensures Texts(Lex(s)) == s
  {
    if s != "" {
      Lossless(s[TokenLength(s)..]);
    }
  }

  /** What is left to visit at position `i`, which may be past the end. */
  function LexAt(s: string, i: nat): seq<Token> {
    if i < |s| then Lex(s[i..]) else []
  }

  /** A word starts where the byte before is no word byte. */
  predicate Boundary(s: string, i: nat) {
    0 < i < |s| && IsWord(s[i]) ==> !IsWord(s[i - 1])
  }

  /** The byte scan. */
  method VisitColumns(s: string) returns (tokens: seq<Token>)
    ensures tokens == Lex(s)
  {
    tokens := [];
    var i := 0;
    assert s[0..] == s;
    while i < |s|
      invariant tokens + LexAt(s, i) == Lex(s) && Boundary(s, i)
      decreases |s| - i
    {
      var token;
      i, token := Visit(s, i);
      VisitedSoFar(tokens, token, LexAt(s, i));
      tokens := tokens + [token];
    }
  }

  /** Visit one token. A word that does not follow a word byte may be a column. */
  method Visit(s: string, start: nat) returns (i: nat, token: Token)
    requires start < |s| && Boundary(s, start)
    ensures start < i && Boundary(s, i) && LexAt(s, start) == [token] + LexAt(s, i)
  {
    if IsQuote(s[start]) {
      i, token := VisitQuoted(s, start);
    } else if IsWord(s[start]) {
      i, token := VisitWord(s, start, start == 0 || !IsWord(s[start - 1]));
    } else {
      NextByte(s, start);
      i, token := start + 1, Token(s[start..start + 1], MAX);
    }
  }

  method VisitQuoted(s: string, start: nat) returns (i: nat, token: Token)
    requires start < |s| && IsQuote(s[start])
    ensures start < i && Boundary(s, i) && LexAt(s, start) == [token] + LexAt(s, i)
  {
    i := ScanQuoted(s, start);
    token := Token(s[start..Min(i, |s|)], MAX);
    QuotedAt(s, start, i);
  }

  lemma QuotedAt(s: string, start: nat, i: nat)
    requires start < |s| && IsQuote(s[start]) && i == QuoteEnd(s, start + 1, Close(s[start]))
    ensures start < i && Boundary(s, i) && LexAt(s, start) == [Token(s[start..Min(i, |s|)], MAX)] + LexAt(s, i)
  {
    QuoteBoundary(s, start, i);
    NextQuoted(s, start);
    LexFrom(s, i);
  }

  lemma QuoteBoundary(s: string, start: nat, i: nat)
    requires start < |s| && IsQuote(s[start]) && i == QuoteEnd(s, start + 1, Close(s[start]))
    ensures Boundary(s, i)
  {
    QuoteEndsOnClose(s, start + 1, Close(s[start]));
  }

  lemma LexFrom(s: string, i: nat)
    ensures LexAt(s, i) == Lex(s[Min(i, |s|)..])
  {
    assert i >= |s| ==> s[Min(i, |s|)..] == "";
  }

  method VisitWord(s: string, start: nat, boundary: bool) returns (i: nat, token: Token)
    requires start < |s| && IsWord(s[start]) && boundary
    ensures start < i && Boundary(s, i) && LexAt(s, start) == [token] + LexAt(s, i)
  {
    i := ScanWord(s, start);
    NextWord(s, start);
    token := Token(s[start..i], if boundary then ColumnOf(s[start..i]) else MAX);
  }

  lemma VisitedSoFar(tokens: seq<Token>, token: Token, rest: seq<Token>)
    ensures (tokens + [token]) + rest == tokens + ([token] + rest)
  {
  }

  method ScanQuoted(s: string, start: nat) returns (i: nat)
    requires start < |s| && IsQuote(s[start])
    ensures i == QuoteEnd(s, start + 1, Close(s[start]))
  {
    var close := Close(s[start]);
    i := start + 1;
    while i < |s|
      invariant start < i && QuoteEnd(s, start + 1, close) == QuoteEnd(s, i, close)
      decreases |s| - i
    {
      if s[i] == close {
        if close != ']' && i + 1 < |s| && s[i + 1] == close {
          i := i + 2;
          continue;
        }
        break;
      }
      i := i + 1;
    }
    i := i + 1;
  }

  method ScanWord(s: string, start: nat) returns (i: nat)
    requires start < |s| && IsWord(s[start])
    ensures i == WordEnd(s, start)
  {
    i := start;
    while i < |s| && IsWord(s[i])
      invariant start <= i <= |s| && WordEnd(s, start) == WordEnd(s, i)
    {
      i := i + 1;
    }
  }

  lemma NextQuoted(s: string, start: nat)
    requires start < |s| && IsQuote(s[start])
    ensures
      var i := Min(QuoteEnd(s, start + 1, Close(s[start])), |s|);
      start < i <= |s| && Lex(s[start..]) == [Token(s[start..i], MAX)] + Lex(s[i..])
  {
    QuoteEndShift(s, start, 1, Close(s[start]));
    NextToken(s, start, Min(QuoteEnd(s, start + 1, Close(s[start])), |s|));
  }

  lemma NextWord(s: string, start: nat)
    requires start < |s| && IsWord(s[start])
    ensures
      var i := WordEnd(s, start);
      start < i <= |s| && Lex(s[start..]) == [Token(s[start..i], ColumnOf(s[start..i]))] + Lex(s[i..])
  {
    WordEndShift(s, start, 0);
    NextToken(s, start, WordEnd(s, start));
  }

  lemma NextByte(s: string, start: nat)
    requires start < |s| && !IsQuote(s[start]) && !IsWord(s[start])
    ensures Lex(s[start..]) == [Token(s[start..start + 1], MAX)] + Lex(s[start + 1..])
  {
    NextToken(s, start, start + 1);
  }

  /** After a quoted token comes no word byte: the last byte is the closing quote. */
  lemma {:induction false} QuoteEndsOnClose(s: string, i: nat, close: char)
    ensures QuoteEnd(s, i, close) <= |s| ==> s[QuoteEnd(s, i, close) - 1] == close
    decreases |s| - i
  {
    if i < |s| {
      if s[i] == close {
        if close != ']' && i + 1 < |s| && s[i + 1] == close {
          QuoteEndsOnClose(s, i + 2, close);
        }
      } else {
        QuoteEndsOnClose(s, i + 1, close);
      }
    }
  }

  lemma NextToken(s: string, start: nat, i: nat)
    requires start < i <= |s| && i - start == TokenLength(s[start..])
    ensures Lex(s[start..]) == [Token(s[start..i], ColumnOf(s[start..i]))] + Lex(s[i..])
    ensures i == |s| ==> Lex(s[i..]) == []
  {
    assert s[start..][..i - start] == s[start..i];
    assert s[start..][i - start..] == s[i..];
  }

  lemma {:induction false} WordEndShift(s: string, start: nat, k: nat)
    requires start <= |s| && start + k <= |s|
    ensures WordEnd(s[start..], k) == WordEnd(s, start + k) - start
    decreases |s| - start - k
  {
    if start + k < |s| && IsWord(s[start + k]) {
      WordEndShift(s, start, k + 1);
    }
  }

  lemma {:induction false} QuoteEndShift(s: string, start: nat, k: nat, close: char)
    requires start <= |s|
    ensures QuoteEnd(s[start..], k, close) == QuoteEnd(s, start + k, close) - start
    decreases |s| - start - k
  {
    if start + k < |s| {
      if s[start + k] == close {
        if close != ']' && start + k + 1 < |s| && s[start + k + 1] == close {
          QuoteEndShift(s, start, k + 2, close);
        }
      } else {
        QuoteEndShift(s, start, k + 1, close);
      }
    }
  }

  // ------------------------------------------------------------------- renumbering

  function Name(n: nat): string {
    "c" + Decimal(n)
  }

  function RenumberedText(t: Token, f: nat -> nat): string {
    if t.column == MAX then t.text else Name(f(t.column))
  }

  function RenumberTokens(tokens: seq<Token>, f: nat -> nat): string {
    if tokens == [] then "" else RenumberedText(tokens[0], f) + RenumberTokens(tokens[1..], f)
  }

  /** `renumber_columns`. */
  function Renumber(s: string, f: nat -> nat): string {
    RenumberTokens(Lex(s), f)
  }

  /** The numbers of the columns that occur, in order. */
  function ColumnNumbers(tokens: seq<Token>): seq<nat> {
    if tokens == [] then []
    else (if tokens[0].column == MAX then [] else [tokens[0].column]) + ColumnNumbers(tokens[1..])
  }

  /** `column_references`. */
  function References(s: string): seq<nat> {
    ColumnNumbers(Lex(s))
  }

  method RenumberColumns(s: string, f: nat -> nat) returns (out: string)
    ensures out == Renumber(s, f)
  {
    out := "";
    var tokens := VisitColumns(s);
    for i := 0 to |tokens|
      invariant out + RenumberTokens(tokens[i..], f) == Renumber(s, f)
    {
      var token, c := tokens[i].text, tokens[i].column;
      ghost var rest := RenumberTokens(tokens[i + 1..], f);
      assert tokens[i..][0] == tokens[i] && tokens[i..][1..] == tokens[i + 1..];
      out := out + if c == MAX then token else "c" + Decimal(f(c));
    }
    assert tokens[|tokens|..] == [];
  }

  method ColumnReferences(s: string) returns (out: seq<nat>)
    ensures out == References(s)
  {
    out := [];
    var tokens := VisitColumns(s);
    for i := 0 to |tokens|
      invariant out + ColumnNumbers(tokens[i..]) == References(s)
    {
      assert tokens[i..][0] == tokens[i] && tokens[i..][1..] == tokens[i + 1..];
      if tokens[i].column != MAX {
        out := out + [tokens[i].column];
      }
    }
    assert tokens[|tokens|..] == [];
  }

  lemma ColumnOfName(n: nat)
    ensures ColumnOf(Name(n)) == if n <= MAX then n else MAX
  {
    NumberOfDecimal(n);
    assert Name(n)[1..] == Decimal(n);
    assert forall i | 1 <= i < |Name(n)| :: Name(n)[i] == Decimal(n)[i - 1];
  }

  // ------------------------------------------------------- lexing the renumbered text

  /** What the renumbered text must lex to. */
  function Relexed(tokens: seq<Token>, f: nat -> nat): (next: seq<Token>)
    ensures |next| == |tokens|
    ensures forall i | 0 <= i < |tokens| ::
              next[i] == Token(RenumberedText(tokens[i], f), ColumnOf(RenumberedText(tokens[i], f)))
  {
    seq(|tokens|,
        i requires 0 <= i < |tokens| => Token(RenumberedText(tokens[i], f), ColumnOf(RenumberedText(tokens[i], f))))
  }

  /** A text that may follow a token in place of another: it starts alike. */
  predicate StartsAlike(a: string, b: string) {
    (a == "" <==> b == "") && (a != "" ==> a[0] == b[0])
  }

  lemma {:induction false} WordEndsAt(w: string, rest: string, i: nat)
    requires i <= |w| && (forall k | 0 <= k < |w| :: IsWord(w[k])) && (rest != "" ==> !IsWord(rest[0]))
    ensures WordEnd(w + rest, i) == |w|
    decreases |w| - i
  {
    if i < |w| {
      WordEndsAt(w, rest, i + 1);
    } else if rest != "" {
      assert (w + rest)[|w|] == rest[0];
    }
  }

  /** Where a quoted token ends depends on its text and the byte after it. */
  lemma {:induction false} QuoteEndsAt(s: string, n: nat, rest: string, i: nat, close: char)
    requires i < n <= |s| && n == QuoteEnd(s, i, close) && StartsAlike(s[n..], rest)
    ensures QuoteEnd(s[..n] + rest, i, close) == n
    decreases |s| - i
  {
    var t := s[..n] + rest;
    assert t[i] == s[i];
    if s[i] == close {
      assert i + 1 < n ==> t[i + 1] == s[i + 1];
      assert i + 1 == n && rest != "" ==> t[n] == rest[0] && s[n..][0] == s[n];
      if close != ']' && i + 1 < |s| && s[i + 1] == close {
        LaterQuote(s, i + 2, close);
        QuoteEndsAt(s, n, rest, i + 2, close);
      }
    } else {
      LaterQuote(s, i + 1, close);
      QuoteEndsAt(s, n, rest, i + 1, close);
    }
  }

  lemma LaterQuote(s: string, i: nat, close: char)
    ensures i < QuoteEnd(s, i, close)
  {
  }

  /** The first token of `s`, renumbered, is the first token of the renumbered text. */
  lemma FirstToken(s: string, f: nat -> nat, rest: string)
    requires s != "" && StartsAlike(s[TokenLength(s)..], rest)
    ensures
      var n := TokenLength(s);
      var text := RenumberedText(Token(s[..n], ColumnOf(s[..n])), f);
      && text != "" && text[0] == s[0]
      && TokenLength(text + rest) == |text|
  {
    var n := TokenLength(s);
    var token := Token(s[..n], ColumnOf(s[..n]));
    var text := RenumberedText(token, f);
    if IsQuote(s[0]) {
      var close := Close(s[0]);
      var e := QuoteEnd(s, 1, close);
      if e <= |s| {
        QuoteEndsAt(s, n, rest, 1, close);
      } else {
        assert rest == "" && text + rest == s;
      }
    } else if IsWord(s[0]) {
      assert forall k | 0 <= k < |text| :: IsWord(text[k]);
      assert rest != "" ==> rest[0] == s[n];
      WordEndsAt(text, rest, 0);
    }
  }

  lemma LexToken(text: string, rest: string)
    requires text != "" && TokenLength(text + rest) == |text|
    ensures Lex(text + rest) == [Token(text, ColumnOf(text))] + Lex(rest)
  {
    assert (text + rest)[..|text|] == text && (text + rest)[|text|..] == rest;
  }

  lemma RenumberToken(s: string, f: nat -> nat)
    requires s != ""
    ensures
      var n := TokenLength(s);
      Renumber(s, f) == RenumberedText(Token(s[..n], ColumnOf(s[..n])), f) + Renumber(s[n..], f)
  {
    var n := TokenLength(s);
    var token := Token(s[..n], ColumnOf(s[..n]));
    assert Lex(s) == [token] + Lex(s[n..]);
    assert ([token] + Lex(s[n..]))[1..] == Lex(s[n..]);
  }

  lemma RelexedCons(token: Token, tokens: seq<Token>, f: nat -> nat)
    ensures Relexed([token] + tokens, f) ==
              [Token(RenumberedText(token, f), ColumnOf(RenumberedText(token, f)))] + Relexed(tokens, f)
  {
  }

  lemma {:induction false} LexRenumbered(s: string, f: nat -> nat)
    ensures Lex(Renumber(s, f)) == Relexed(Lex(s), f)
    ensures StartsAlike(s, Renumber(s, f))
  {
    if s != "" {
      var n := TokenLength(s);
      var rest := Renumber(s[n..], f);
      LexRenumbered(s[n..], f);
      FirstToken(s, f, rest);
      RenumberToken(s, f);
      LexToken(RenumberedText(Token(s[..n], ColumnOf(s[..n])), f), rest);
      RelexedCons(Token(s[..n], ColumnOf(s[..n])), Lex(s[n..]), f);
    }
  }

  // ------------------------------------------------------------------- composition

  /** Renumbering into a proper column keeps the reference. */
  predicate Lands(tokens: seq<Token>, f: nat -> nat) {
    forall i | 0 <= i < |tokens| && tokens[i].column != MAX :: f(tokens[i].column) < MAX
  }

  lemma {:induction false} ColumnsRelexed(tokens: seq<Token>, f: nat -> nat)
    requires Lands(tokens, f) && forall i | 0 <= i < |tokens| :: tokens[i].column == ColumnOf(tokens[i].text)
    ensures ColumnNumbers(Relexed(tokens, f)) == Mapped(ColumnNumbers(tokens), f)
  {
    if tokens != [] {
      assert forall i | 0 <= i < |tokens[1..]| :: tokens[1..][i] == tokens[i + 1];
      ColumnsRelexed(tokens[1..], f);
      assert Relexed(tokens, f)[1..] == Relexed(tokens[1..], f);
      if tokens[0].column != MAX {
        ColumnOfName(f(tokens[0].column));
        assert ColumnNumbers(tokens) == [tokens[0].column] + ColumnNumbers(tokens[1..]);
        assert Mapped(ColumnNumbers(tokens), f) == [f(tokens[0].column)] + Mapped(ColumnNumbers(tokens[1..]), f);
      }
    }
  }

  function Mapped(cs: seq<nat>, f: nat -> nat): (next: seq<nat>)
    ensures |next| == |cs| && forall i | 0 <= i < |cs| :: next[i] == f(cs[i])
  {
    seq(|cs|, i requires 0 <= i < |cs| => f(cs[i]))
  }

  lemma {:induction false} LexColumns(s: string)
    ensures forall i | 0 <= i < |Lex(s)| :: Lex(s)[i].column == ColumnOf(Lex(s)[i].text)
  {
    if s != "" {
      LexColumns(s[TokenLength(s)..]);
    }
  }

  /** References map through `f`. */
  lemma ReferencesMap(s: string, f: nat -> nat)
    requires Lands(Lex(s), f)
    ensures References(Renumber(s, f)) == Mapped(References(s), f)
  {
    LexRenumbered(s, f);
    LexColumns(s);
    ColumnsRelexed(Lex(s), f);
  }

  /** `f` sends no referenced column to MAX, or `g` leaves MAX where it is. */
  predicate Composes(tokens: seq<Token>, f: nat -> nat, g: nat -> nat) {
    forall i | 0 <= i < |tokens| && tokens[i].column != MAX :: f(tokens[i].column) == MAX ==> g(MAX) == MAX
  }

  lemma {:induction false} TokensCompose(tokens: seq<Token>, f: nat -> nat, g: nat -> nat)
    requires forall i | 0 <= i < |tokens| :: tokens[i].column == ColumnOf(tokens[i].text)
    requires (forall c :: f(c) <= MAX) && Composes(tokens, f, g)
    ensures RenumberTokens(Relexed(tokens, f), g) == RenumberTokens(tokens, c => g(f(c)))
  {
    if tokens != [] {
      assert forall i | 0 <= i < |tokens[1..]| :: tokens[1..][i] == tokens[i + 1];
      TokensCompose(tokens[1..], f, g);
      assert Relexed(tokens, f)[1..] == Relexed(tokens[1..], f);
      if tokens[0].column != MAX {
        ColumnOfName(f(tokens[0].column));
      }
    }
  }

  /** Renumbering twice is renumbering by the composition, exactly when no reference
      is lost at MAX on the way, or `g` keeps MAX. */
  lemma RenumberComposes(s: string, f: nat -> nat, g: nat -> nat)
    requires forall c :: f(c) <= MAX && g(c) <= MAX
    ensures Renumber(Renumber(s, f), g) == Renumber(s, c => g(f(c))) <==> Composes(Lex(s), f, g)
  {
    var tokens := Lex(s);
    var fg := (c: nat) => g(f(c));
    LexColumns(s);
    LexRenumbered(s, f);
    if Composes(tokens, f, g) {
      TokensCompose(tokens, f, g);
    } else {
      var i :| 0 <= i < |tokens| && tokens[i].column != MAX && f(tokens[i].column) == MAX && g(MAX) != MAX;
      LexRenumbered(Renumber(s, f), g);
      LexRenumbered(s, c => g(f(c)));
      var first, second := Relexed(Relexed(tokens, f), g), Relexed(tokens, c => g(f(c)));
      ColumnOfName(MAX);
      assert first[i].text == Name(MAX) && second[i].text == Name(g(MAX));
      if Name(MAX) == Name(g(MAX)) {
        assert Name(MAX)[1..] == Decimal(MAX) && Name(g(MAX))[1..] == Decimal(g(MAX));
        DecimalInjective(MAX, g(MAX));
      }
    }
  }
}

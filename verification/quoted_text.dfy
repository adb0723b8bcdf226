/** What the column lexer takes for quoted text and for a word: quoted text stays as
    it is, and of the words outside quotes only column references change. */
module QuotedText {
  import opened Columns

  /** Between quotes, and up to which byte; or outside. */
  datatype Mode = Outside | Inside(close: char)

  function Step(mode: Mode, c: char): Mode {
    match mode
    case Outside =>
      if c == '\'' || c == '"' || c == '`' then Inside(c) else if c == '[' then Inside(']') else Outside
    case Inside(close) => if c == close then Outside else mode
  }

  /** A doubled quote closes and opens again at once. */
  function After(mode: Mode, s: string): Mode
    decreases s
  {
    if s == "" then mode else After(Step(mode, s[0]), s[1..])
  }

  predicate EndsOutside(s: string) {
    After(Outside, s) == Outside
  }

  predicate WordByte(c: char) {
    'a' <= c <= 'z' || 'A' <= c <= 'Z' || '0' <= c <= '9' || c == '_'
  }

  /** No word runs across the border. */
  predicate Apart(p: string, t: string) {
    p == "" || t == "" || !(WordByte(p[|p| - 1]) && WordByte(t[0]))
  }

  lemma WordBytes()
    ensures forall c :: IsWord(c) <==> WordByte(c)
  {
  }

  lemma {:induction false} AfterAppend(mode: Mode, s: string, t: string)
    ensures After(mode, s + t) == After(After(mode, s), t)
    decreases s
  {
    if s == "" {
      assert s + t == t;
    } else {
      assert (s + t)[1..] == s[1..] + t;
      AfterAppend(Step(mode, s[0]), s[1..], t);
    }
  }

  lemma AfterFirst(mode: Mode, s: string, i: nat, e: nat)
    requires i < e <= |s|
    ensures After(mode, s[i..e]) == After(Step(mode, s[i]), s[i + 1..e])
  {
    assert s[i..e][0] == s[i] && s[i..e][1..] == s[i + 1..e];
  }

  /** Where a quoted token ends, the text is outside again; with no end it stays inside. */
  lemma {:induction false} QuoteMode(s: string, i: nat, close: char)
    requires i <= |s| && (close == '\'' || close == '"' || close == '`' || close == ']')
    ensures
      var e := QuoteEnd(s, i, close);
      if e <= |s| then After(Inside(close), s[i..e]) == Outside else After(Inside(close), s[i..|s|]) == Inside(close)
    decreases |s| - i
  {
    if i < |s| {
      var e := QuoteEnd(s, i, close);
      var end := if e <= |s| then e else |s|;
      AfterFirst(Inside(close), s, i, end);
      if s[i] != close {
        QuoteMode(s, i + 1, close);
      } else if close != ']' && i + 1 < |s| && s[i + 1] == close {
        AfterFirst(Outside, s, i + 1, end);
        QuoteMode(s, i + 2, close);
      }
    }
  }

  /** A text that ends outside quotes closes the quoted token it starts with. */
  lemma FirstCloses(p: string)
    requires p != "" && IsQuote(p[0]) && EndsOutside(p)
    ensures QuoteEnd(p, 1, Close(p[0])) <= |p| && EndsOutside(p[TokenLength(p)..])
  {
    var close := Close(p[0]);
    var e := QuoteEnd(p, 1, close);
    QuoteMode(p, 1, close);
    assert p[1..|p|] == p[1..];
    assert p[1..|p|] == p[1..e] + p[e..];
    AfterAppend(Inside(close), p[1..e], p[e..]);
  }

  lemma {:induction false} PlainAfter(s: string)
    requires forall k | 0 <= k < |s| :: !IsQuote(s[k])
    ensures After(Outside, s) == Outside
  {
    if s != "" {
      assert forall k | 0 <= k < |s[1..]| :: s[1..][k] == s[k + 1];
      PlainAfter(s[1..]);
    }
  }

  /** So does one that starts with a word or another byte. */
  lemma FirstPlain(p: string)
    requires p != "" && !IsQuote(p[0]) && EndsOutside(p)
    ensures EndsOutside(p[TokenLength(p)..])
  {
    var n := TokenLength(p);
    assert forall k | 0 <= k < n :: !IsQuote(p[k]);
    PlainAfter(p[..n]);
    AfterAppend(Outside, p[..n], p[n..]);
    assert p == p[..n] + p[n..];
  }

  lemma {:induction false} WordEndAppend(p: string, t: string, i: nat)
    requires i <= |p| && (WordEnd(p, i) < |p| || t == "" || !IsWord(t[0]))
    ensures WordEnd(p + t, i) == WordEnd(p, i)
    decreases |p| - i
  {
    if i < |p| && IsWord(p[i]) {
      WordEndAppend(p, t, i + 1);
    } else if i == |p| && t != "" {
      assert (p + t)[i] == t[0];
    }
  }

  /** A quoted token goes on across the border only where its closing quote is doubled. */
  lemma {:induction false} QuoteEndAppend(p: string, t: string, i: nat, close: char)
    requires i <= |p| && QuoteEnd(p, i, close) <= |p|
    ensures QuoteEnd(p + t, i, close) ==
      if QuoteEnd(p, i, close) == |p| && close != ']' && t != "" && t[0] == close then QuoteEnd(p + t, |p| + 1, close)
      else QuoteEnd(p, i, close)
    decreases |p| - i
  {
    if i < |p| {
      if p[i] == close {
        assert i + 1 == |p| && t != "" ==> (p + t)[i + 1] == t[0];
        if close != ']' && i + 1 < |p| && p[i + 1] == close {
          QuoteEndAppend(p, t, i + 2, close);
        }
      } else {
        QuoteEndAppend(p, t, i + 1, close);
      }
    }
  }

  // ---------------------------------------------------------------- concatenation

  lemma Regroup<T>(a: seq<T>, b: seq<T>, c: seq<T>)
    ensures a + (b + c) == a + b + c
  {
  }

  lemma Joined<T>(whole: seq<T>, p: seq<T>, first: seq<T>, rest: seq<T>, t: seq<T>)
    requires whole == first + (rest + t) && p == first + rest
    ensures whole == p + t
  {
  }

  /** What a token contributes. */
  function Changed(text: string, f: nat -> nat): string {
    RenumberedText(Token(text, ColumnOf(text)), f)
  }

  function Named(text: string): seq<nat> {
    if ColumnOf(text) == MAX then [] else [ColumnOf(text)]
  }

  /** The first token of a text, renumbered, and the numbers it refers to. */
  lemma Unfold(s: string, first: string, rest: string, f: nat -> nat)
    requires s == first + rest && s != "" && |first| == TokenLength(s)
    ensures Renumber(s, f) == Changed(first, f) + Renumber(rest, f)
    ensures References(s) == Named(first) + References(rest)
  {
    assert s[..|first|] == first && s[|first|..] == rest;
    RenumberToken(s, f);
    var token := Token(first, ColumnOf(first));
    assert ([token] + Lex(rest))[1..] == Lex(rest);
  }

  lemma QuotedColumn(text: string, f: nat -> nat)
    requires text != "" && IsQuote(text[0])
    ensures Changed(text, f) == text && Named(text) == []
  {
  }

  /** A text that is one quoted token. */
  lemma OneToken(p: string, f: nat -> nat)
    requires p != "" && IsQuote(p[0]) && TokenLength(p) == |p|
    ensures Renumber(p, f) == p && References(p) == []
  {
    QuotedColumn(p, f);
    assert p == p + "";
    Unfold(p, p, "", f);
  }

  lemma MergedLength(p: string, t: string)
    requires p != "" && IsQuote(p[0]) && QuoteEnd(p, 1, Close(p[0])) == |p|
    requires Close(p[0]) != ']' && t != "" && t[0] == Close(p[0])
    ensures TokenLength(p + t) == |p| + TokenLength(t) && IsQuote(t[0])
  {
    var s, close := p + t, Close(p[0]);
    QuoteEndAppend(p, t, 1, close);
    QuoteEndShift(s, |p|, 1, close);
    assert s[|p|..] == t;
  }

  /** A quoted token at the start stays as it is. */
  lemma QuotedFirst(s: string, first: string, rest: string, f: nat -> nat)
    requires s == first + rest && s != "" && IsQuote(s[0]) && TokenLength(s) == |first|
    ensures Renumber(s, f) == first + Renumber(rest, f) && References(s) == References(rest)
  {
    QuotedColumn(first, f);
    Unfold(s, first, rest, f);
    assert [] + References(rest) == References(rest);
  }

  /** Two closed quoted tokens that meet at a doubled quote are one, and stay as they are. */
  lemma Merged(p: string, t: string, f: nat -> nat)
    requires p != "" && IsQuote(p[0]) && QuoteEnd(p, 1, Close(p[0])) == |p|
    requires Close(p[0]) != ']' && t != "" && t[0] == Close(p[0])
    ensures Renumber(p + t, f) == p + Renumber(t, f) && References(p + t) == References(t)
  {
    var first, rest := t[..TokenLength(t)], t[TokenLength(t)..];
    MergedLength(p, t);
    assert t == first + rest;
    Regroup(p, first, rest);
    QuotedFirst(t, first, rest, f);
    QuotedFirst(p + t, p + first, rest, f);
    Regroup(p, first, Renumber(rest, f));
  }

  /** Piece by piece past a first token that ends before the border. */
  lemma PiecesStep(p: string, first: string, rest: string, t: string, s: string, f: nat -> nat)
    requires p == first + rest && s == first + (rest + t) && p != "" && |first| == TokenLength(p) == TokenLength(s)
    requires Renumber(rest + t, f) == Renumber(rest, f) + Renumber(t, f)
    requires References(rest + t) == References(rest) + References(t)
    ensures Renumber(s, f) == Renumber(p, f) + Renumber(t, f)
    ensures References(s) == References(p) + References(t)
  {
    Unfold(p, first, rest, f);
    Unfold(s, first, rest + t, f);
    Joined(Renumber(s, f), Renumber(p, f), Changed(first, f), Renumber(rest, f), Renumber(t, f));
    Joined(References(s), References(p), Named(first), References(rest), References(t));
  }

  /** Where the first token of `p` ends when more text follows. */
  lemma FirstLength(p: string, t: string)
    requires p != "" && EndsOutside(p) && Apart(p, t)
    ensures EndsOutside(p[TokenLength(p)..])
    ensures
      || TokenLength(p + t) == TokenLength(p)
      || (IsQuote(p[0]) && QuoteEnd(p, 1, Close(p[0])) == |p| && Close(p[0]) != ']' && t != "" && t[0] == Close(p[0]))
  {
    WordBytes();
    if IsQuote(p[0]) {
      FirstCloses(p);
      QuoteEndAppend(p, t, 1, Close(p[0]));
    } else {
      FirstPlain(p);
      if IsWord(p[0]) {
        WordEndAppend(p, t, 0);
      }
    }
  }

  /** A text that ends outside quotes, followed by one that continues none of its words,
      is renumbered piece by piece. */
  lemma {:induction false} Pieces(p: string, t: string, f: nat -> nat)
    requires EndsOutside(p) && Apart(p, t)
    ensures Renumber(p + t, f) == Renumber(p, f) + Renumber(t, f)
    ensures References(p + t) == References(p) + References(t)
    decreases |p|
  {
    if p == "" {
      assert p + t == t;
    } else {
      var n := TokenLength(p);
      FirstLength(p, t);
      if TokenLength(p + t) == n {
        Pieces(p[n..], t, f);
        assert p == p[..n] + p[n..];
        Regroup(p[..n], p[n..], t);
        PiecesStep(p, p[..n], p[n..], t, p + t, f);
      } else {
        Merged(p, t, f);
        OneToken(p, f);
        assert [] + References(t) == References(t);
      }
    }
  }

  // ------------------------------------------------------------------- quoted text

  /** Every `q` of the body written twice. */
  function Doubled(body: string, q: char): string {
    if body == "" then "" else (if body[0] == q then [q, q] else [body[0]]) + Doubled(body[1..], q)
  }

  /** A body in quotes, or in brackets. */
  function InQuotes(body: string, q: char): string {
    if q == '[' then "[" + body + "]" else [q] + Doubled(body, q) + [q]
  }

  predicate Quotable(body: string, q: char) {
    q == '\'' || q == '"' || q == '`' || (q == '[' && ']' !in body)
  }

  lemma {:induction false} DoubledEnd(body: string, q: char, before: string)
    requires q != ']'
    ensures QuoteEnd(before + Doubled(body, q) + [q], |before|, q) == |before| + |Doubled(body, q)| + 1
    decreases |body|
  {
    var s := before + Doubled(body, q) + [q];
    if body == "" {
      assert s[|before|] == q;
    } else {
      var head := if body[0] == q then [q, q] else [body[0]];
      assert s == (before + head) + Doubled(body[1..], q) + [q];
      assert s[|before|] == head[0];
      assert body[0] == q ==> s[|before| + 1] == q;
      DoubledEnd(body[1..], q, before + head);
    }
  }

  lemma {:induction false} BracketEnd(body: string, before: string)
    requires ']' !in body
    ensures QuoteEnd(before + body + "]", |before|, ']') == |before| + |body| + 1
    decreases |body|
  {
    var s := before + body + "]";
    if body != "" {
      assert s == (before + [body[0]]) + body[1..] + "]";
      assert s[|before|] == body[0] && body[0] in body;
      assert forall c | c in body[1..] :: c in body;
      BracketEnd(body[1..], before + [body[0]]);
    }
  }

  /** Quoted text is one token, without a reference, and ends outside. */
  lemma QuotedToken(body: string, q: char, f: nat -> nat)
    requires Quotable(body, q)
    ensures
      var text := InQuotes(body, q);
      && text != "" && !WordByte(text[0]) && !WordByte(text[|text| - 1])
      && EndsOutside(text) && Renumber(text, f) == text && References(text) == []
  {
    var text := InQuotes(body, q);
    if q == '[' {
      BracketEnd(body, "[");
    } else {
      DoubledEnd(body, q, [q]);
    }
    assert IsQuote(text[0]) && QuoteEnd(text, 1, Close(text[0])) == |text|;
    QuoteMode(text, 1, Close(text[0]));
    assert text[1..|text|] == text[1..];
    OneToken(text, f);
  }

  /** Quoted text stays byte for byte, whatever it says, and refers to no column. */
  lemma QuotedStays(p: string, body: string, q: char, r: string, f: nat -> nat)
    requires EndsOutside(p) && Quotable(body, q)
    ensures Renumber(p + InQuotes(body, q) + r, f) == Renumber(p, f) + InQuotes(body, q) + Renumber(r, f)
    ensures References(p + InQuotes(body, q) + r) == References(p) + References(r)
  {
    QuotedToken(body, q, f);
    Between(p, InQuotes(body, q), r, f);
    assert References(p) + [] == References(p);
  }

  /** A text between two others, cut where no word runs on. */
  lemma Between(p: string, w: string, r: string, f: nat -> nat)
    requires EndsOutside(p) && EndsOutside(w) && w != "" && Apart(p, w) && Apart(w, r)
    ensures Renumber(p + w + r, f) == Renumber(p, f) + Renumber(w, f) + Renumber(r, f)
    ensures References(p + w + r) == References(p) + References(w) + References(r)
  {
    Regroup(p, w, r);
    Pieces(p, w + r, f);
    Pieces(w, r, f);
    Regroup(Renumber(p, f), Renumber(w, f), Renumber(r, f));
    Regroup(References(p), References(w), References(r));
  }

  // ------------------------------------------------------------------------- words

  lemma WordToken(w: string, f: nat -> nat)
    requires w != "" && forall k | 0 <= k < |w| :: WordByte(w[k])
    ensures EndsOutside(w) && Renumber(w, f) == Changed(w, f) && References(w) == Named(w)
  {
    WordBytes();
    PlainAfter(w);
    WordEndsAt(w, "", 0);
    assert w + "" == w;
    Unfold(w, w, "", f);
    assert Changed(w, f) + "" == Changed(w, f) && Named(w) + [] == Named(w);
  }

  /** A word stands alone outside quotes. */
  predicate Stands(p: string, w: string, r: string) {
    && EndsOutside(p) && w != "" && (forall k | 0 <= k < |w| :: WordByte(w[k]))
    && (p == "" || !WordByte(p[|p| - 1])) && (r == "" || !WordByte(r[0]))
  }

  lemma WordBetween(p: string, w: string, r: string, f: nat -> nat)
    requires Stands(p, w, r)
    ensures Renumber(p + w + r, f) == Renumber(p, f) + Changed(w, f) + Renumber(r, f)
    ensures References(p + w + r) == References(p) + Named(w) + References(r)
  {
    WordToken(w, f);
    Between(p, w, r, f);
  }

  /** `c` and the digits of a number below MAX is a reference, and is renumbered. */
  lemma ReferenceChanges(p: string, n: nat, r: string, f: nat -> nat)
    requires n < MAX && Stands(p, "c" + Decimal(n), r)
    ensures Renumber(p + ("c" + Decimal(n)) + r, f) == Renumber(p, f) + ("c" + Decimal(f(n))) + Renumber(r, f)
    ensures References(p + ("c" + Decimal(n)) + r) == References(p) + [n] + References(r)
  {
    ColumnOfName(n);
    WordBetween(p, "c" + Decimal(n), r, f);
  }

  /** `c` and digits, of a number below MAX. */
  predicate NamesColumn(w: string) {
    && |w| > 1 && w[0] == 'c' && (forall k | 1 <= k < |w| :: '0' <= w[k] <= '9')
    && Number(w[1..]) < MAX
  }

  lemma NoColumn(w: string, f: nat -> nat)
    requires !NamesColumn(w)
    ensures Changed(w, f) == w && Named(w) == []
  {
  }

  /** Any other word stays. */
  lemma OtherWordStays(p: string, w: string, r: string, f: nat -> nat)
    requires Stands(p, w, r) && !NamesColumn(w)
    ensures Renumber(p + w + r, f) == Renumber(p, f) + w + Renumber(r, f)
    ensures References(p + w + r) == References(p) + References(r)
  {
    NoColumn(w, f);
    WordBetween(p, w, r, f);
    assert References(p) + [] == References(p);
  }
}

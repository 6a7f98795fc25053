/** Token sequences written out as SQL text read back as exactly those tokens. */
module SqlPieces {
  import opened SqlLexer

  /** A token as it is written, a space, or the ordinary literal of the empty string. */
  datatype Piece = Space | EmptyLiteral | Tok(token: Token)

  function Decimal(n: nat): string {
    if n < 10 then [DigitOf(n)] else Decimal(n / 10) + [DigitOf(n % 10)]
  }

  function DigitOf(n: nat): (c: char)
    requires n < 10
    ensures Digit(c) && c as int == '0' as int + n
  {
    ('0' as int + n) as char
  }

  function Spell(p: Piece): string {
    match p
    case Space => " "
    case EmptyLiteral => "''"
    case Tok(Word(w)) => w
    case Tok(Name(n)) => QuoteIdent(n)
    case Tok(Number(n)) => Decimal(n)
    case Tok(Str(t)) => Estring(t)
    case Tok(Mark(m)) => m
  }

  function Meaning(p: Piece): seq<Token> {
    match p
    case Space => []
    case EmptyLiteral => [Str("")]
    case Tok(t) => [t]
  }

  function SpellAll(ps: seq<Piece>): string {
    if ps == [] then [] else Spell(ps[0]) + SpellAll(ps[1..])
  }

  function Meanings(ps: seq<Piece>): seq<Token> {
    if ps == [] then [] else Meaning(ps[0]) + Meanings(ps[1..])
  }

  predicate IsWord(w: string) {
    w != [] && WordStart(w[0]) && forall i :: 0 <= i < |w| ==> WordChar(w[i])
  }

  predicate IsMark(m: string) { m in {"||", "::", "+", ".", ",", "(", ")"} }

  predicate WellFormed(p: Piece) {
    match p
    case Tok(Word(w)) => IsWord(w)
    case Tok(Name(n)) => n != []
    case Tok(Mark(m)) => IsMark(m)
    case _ => true
  }

  /** A text starting with `c` does not run into the piece before it. */
  predicate Stops(p: Piece, c: char) {
    match p
    case Space => true
    case EmptyLiteral => c != '\''
    case Tok(Word(_)) => !WordChar(c) && c != '\''
    case Tok(Name(_)) => c != '"'
    case Tok(Number(_)) => !Digit(c) && !WordStart(c) && c != '.'
    case Tok(Str(_)) => c != '\''
    case Tok(Mark(m)) =>
      if m == "||" || m == "+" then !OperatorChar(c) else if m == "." then !Digit(c) else true
  }

  predicate Follows(p: Piece, s: string) { s == [] || Stops(p, s[0]) }

  predicate Apart(p: Piece, q: Piece) { Follows(p, Spell(q)) }

  /** Well-formed pieces, none running into the next. */
  predicate Separate(ps: seq<Piece>) {
    && (forall i :: 0 <= i < |ps| ==> WellFormed(ps[i]))
    && (forall i :: 0 < i < |ps| ==> Apart(ps[i - 1], ps[i]))
  }

  // ---- one piece ----

  lemma {:induction false} WordRuns(w: string, rest: string)
    requires (forall i :: 0 <= i < |w| ==> WordChar(w[i])) && (rest == [] || !WordChar(rest[0]))
    ensures WordRun(w + rest) == |w|
  {
    if w == [] {
      assert w + rest == rest;
    } else {
      WordRuns(w[1..], rest);
      assert (w + rest)[1..] == w[1..] + rest;
    }
  }

  lemma {:induction false} DigitRuns(w: string, rest: string)
    requires (forall i :: 0 <= i < |w| ==> Digit(w[i])) && (rest == [] || !Digit(rest[0]))
    ensures DigitRun(w + rest) == |w|
  {
    if w == [] {
      assert w + rest == rest;
    } else {
      DigitRuns(w[1..], rest);
      assert (w + rest)[1..] == w[1..] + rest;
    }
  }

  /** A number written in decimal reads back as itself. */
  lemma {:induction false} DecimalReadsBack(n: nat)
    ensures Decimal(n) != [] && forall i :: 0 <= i < |Decimal(n)| ==> Digit(Decimal(n)[i])
    ensures ValueOf(Decimal(n)) == n
  {
    hide ValueOf;
    if n < 10 {
      ValueSnoc("", DigitOf(n));
      assert "" + [DigitOf(n)] == [DigitOf(n)];
    } else {
      DecimalReadsBack(n / 10);
      ValueSnoc(Decimal(n / 10), DigitOf(n % 10));
    }
  }

  lemma ValueSnoc(digits: string, c: char)
    requires Digit(c)
    ensures ValueOf(digits + [c]) == 10 * ValueOf(digits) + (c as int - '0' as int)
    ensures ValueOf("") == 0
  {
    assert (digits + [c])[..|digits|] == digits;
  }

  lemma WordLexes(w: string, rest: string, conforming: bool)
    requires IsWord(w) && Follows(Tok(Word(w)), rest)
    ensures LexSql(w + rest, conforming) == Prepend(Word(w), LexSql(rest, conforming))
  {
    hide WordRun, DigitRun, Read, ValueOf, MarkLength;
    var s := w + rest;
    WordRuns(w[1..], rest);
    assert s[1..] == w[1..] + rest && s[0] == w[0];
    assert s[..|w|] == w && s[|w|..] == rest;
    if |w| > 1 { assert s[1] == w[1] && WordChar(w[1]); }
  }

  lemma NameLexes(n: string, rest: string, conforming: bool)
    requires n != [] && Ends(rest, '"')
    ensures LexSql(QuoteIdent(n) + rest, conforming) == Prepend(Name(n), LexSql(rest, conforming))
  {
    hide WordRun, DigitRun, Read, ValueOf, MarkLength, Quote;
    var s := QuoteIdent(n) + rest;
    QuoteReadsBack(n, '"', false, rest);
    assert s[1..] == Quote(n, '"', false) + ['"'] + rest;
    assert s[1 + (|Quote(n, '"', false)| + 1)..] == rest;
  }

  lemma EstringLexes(t: string, rest: string, conforming: bool)
    requires Ends(rest, '\'')
    ensures LexSql(Estring(t) + rest, conforming) == Prepend(Str(t), LexSql(rest, conforming))
  {
    hide WordRun, DigitRun, Read, ValueOf, MarkLength, Quote;
    var s := Estring(t) + rest;
    QuoteReadsBack(t, '\'', true, rest);
    assert s[2..] == Quote(t, '\'', true) + ['\''] + rest;
    assert s[2 + (|Quote(t, '\'', true)| + 1)..] == rest;
  }

  lemma EmptyLexes(rest: string, conforming: bool)
    requires Ends(rest, '\'')
    ensures LexSql("''" + rest, conforming) == Prepend(Str(""), LexSql(rest, conforming))
  {
    hide WordRun, DigitRun, ValueOf, MarkLength;
    var s := "''" + rest;
    assert s[1..] == "'" + rest && s[1..][1..] == rest;
    ReadStep(s[1..], '\'', !conforming);
    assert s[2..] == rest;
  }

  lemma NumberLexes(n: nat, rest: string, conforming: bool)
    requires Follows(Tok(Number(n)), rest)
    ensures LexSql(Decimal(n) + rest, conforming) == Prepend(Number(n), LexSql(rest, conforming))
  {
    hide WordRun, DigitRun, Read, ValueOf, MarkLength, Decimal;
    var w := Decimal(n);
    var s := w + rest;
    DecimalReadsBack(n);
    DigitRuns(w[1..], rest);
    assert s[1..] == w[1..] + rest && s[0] == w[0] && Digit(s[0]);
    assert s[..|w|] == w && s[|w|..] == rest;
  }

  lemma MarkLexes(m: string, rest: string, conforming: bool)
    requires IsMark(m) && Follows(Tok(Mark(m)), rest)
    ensures LexSql(m + rest, conforming) == Prepend(Mark(m), LexSql(rest, conforming))
  {
    hide WordRun, DigitRun, Read, ValueOf, MarkLength, IsMark;
    var s := m + rest;
    MarkSpan(m, rest);
    assert s[..|m|] == m && s[|m|..] == rest;
  }

  lemma MarkSpan(m: string, rest: string)
    requires IsMark(m) && Follows(Tok(Mark(m)), rest)
    ensures m != [] && MarkLength(m + rest) == |m|
    ensures var c := (m + rest)[0]; c != ' ' && c != '"' && c != '\'' && c != 'E' && c != 'e' && !Digit(c) && !WordStart(c)
  {
    var s := m + rest;
    assert s[0] == m[0];
    if rest != [] { assert s[|m|] == rest[0]; }
  }

  function PrependAll(ts: seq<Token>, r: Lexed): Lexed {
    match r
    case Refused => Refused
    case Tokens(more) => Tokens(ts + more)
  }

  lemma PieceLexes(p: Piece, rest: string, conforming: bool)
    requires WellFormed(p) && Follows(p, rest)
    ensures LexSql(Spell(p) + rest, conforming) == PrependAll(Meaning(p), LexSql(rest, conforming))
  {
    hide LexSql, Estring, QuoteIdent, Decimal, IsWord, IsMark;
    match p {
      case Space => SpaceLexes(rest, conforming);
      case EmptyLiteral => EmptyLexes(rest, conforming);
      case Tok(Word(w)) => WordLexes(w, rest, conforming);
      case Tok(Name(n)) => NameLexes(n, rest, conforming);
      case Tok(Number(n)) => NumberLexes(n, rest, conforming);
      case Tok(Str(t)) => EstringLexes(t, rest, conforming);
      case Tok(Mark(m)) => MarkLexes(m, rest, conforming);
    }
  }

  lemma SpaceLexes(rest: string, conforming: bool)
    ensures LexSql(" " + rest, conforming) == PrependAll([], LexSql(rest, conforming))
  {
    hide WordRun, DigitRun, Read, ValueOf, MarkLength;
    assert (" " + rest)[1..] == rest;
    var r := LexSql(rest, conforming);
    if r.Tokens? { assert [] + r.tokens == r.tokens; }
  }

  // ---- many pieces ----

  lemma SpelledPiece(p: Piece)
    requires WellFormed(p)
    ensures Spell(p) != []
  {
  }

  lemma SeparateTail(ps: seq<Piece>)
    requires Separate(ps) && ps != []
    ensures WellFormed(ps[0]) && Separate(ps[1..]) && (|ps| > 1 ==> Apart(ps[0], ps[1]) && WellFormed(ps[1]))
  {
    var tail := ps[1..];
    assert forall i :: 0 <= i < |tail| ==> tail[i] == ps[i + 1];
    forall i | 0 < i < |tail| ensures Apart(tail[i - 1], tail[i]) {
      assert Apart(ps[i + 1 - 1], ps[i + 1]);
    }
    if |ps| > 1 { assert Apart(ps[1 - 1], ps[1]); }
  }

  /** Separate pieces read back as their tokens, under either setting. */
  lemma {:induction false} PiecesLex(ps: seq<Piece>, conforming: bool)
    requires Separate(ps)
    ensures LexSql(SpellAll(ps), conforming) == Tokens(Meanings(ps))
  {
    hide LexSql, Spell, Separate, WellFormed, Stops;
    if ps == [] {
      NothingLexes(conforming);
    } else {
      SeparateTail(ps);
      var tail := ps[1..];
      PiecesLex(tail, conforming);
      if tail != [] {
        assert tail[0] == ps[1];
        SpelledPiece(ps[1]);
        assert SpellAll(tail)[0] == Spell(ps[1])[0];
      }
      PieceLexes(ps[0], SpellAll(tail), conforming);
    }
  }

  lemma NothingLexes(conforming: bool)
    ensures LexSql([], conforming) == Tokens([])
  {
  }

  lemma {:induction false} SpellConcat(a: seq<Piece>, b: seq<Piece>)
    ensures SpellAll(a + b) == SpellAll(a) + SpellAll(b)
  {
    if a == [] {
      assert a + b == b;
    } else {
      assert (a + b)[1..] == a[1..] + b;
      SpellConcat(a[1..], b);
    }
  }

  lemma SpellOne(p: Piece)
    ensures SpellAll([p]) == Spell(p)
  {
    assert [p][1..] == [];
    assert SpellAll([p]) == Spell(p) + [];
  }

  lemma SeparateConcat(a: seq<Piece>, b: seq<Piece>)
    requires Separate(a) && Separate(b) && (a == [] || b == [] || Apart(a[|a| - 1], b[0]))
    ensures Separate(a + b)
  {
    var all := a + b;
    forall i | 0 < i < |all| ensures Apart(all[i - 1], all[i]) {
      if i < |a| {
        assert Apart(a[i - 1], a[i]);
      } else if i > |a| {
        assert Apart(b[i - |a| - 1], b[i - |a|]);
      }
    }
  }
}

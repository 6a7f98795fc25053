/** The SQL expressions of the fragment: their text, their tokens and their value on a row. */
module SqlExpr {
  import opened Text
  import opened SqlLexer
  import opened SqlPieces

  datatype Expr =
    | Literal(text: string)
    | Empty
    | Int(n: nat)
    | Field(alias: string, name: string)
    | ChunkText(alias: string)
    | AsText(e: Expr)
    | AsBigint(e: Expr)
    | Coalesce(e: Expr, fallback: Expr)
    | OctetLength(e: Expr)
    | Concat(left: Expr, right: Expr)
    | Add(left: Expr, right: Expr)
    | WhenPresent(source: Expr, e: Expr)

  function Prefix(alias: string): string { if alias == "" then "" else alias + "." }

  /** The text of an expression. */
  function Show(x: Expr): string {
    match x
    case Literal(text) => Estring(text)
    case Empty => "''"
    case Int(n) => Decimal(n)
    case Field(alias, name) => Prefix(alias) + QuoteIdent(name)
    case ChunkText(alias) => alias + ".chunk_text"
    case AsText(e) => Show(e) + "::text"
    case AsBigint(e) => Show(e) + "::bigint"
    case Coalesce(e, fallback) => "COALESCE(" + Show(e) + ", " + Show(fallback) + ")"
    case OctetLength(e) => "octet_length(" + Show(e) + ")"
    case Concat(left, right) => Show(left) + " || " + Show(right)
    case Add(left, right) => Show(left) + " + " + Show(right)
    case WhenPresent(source, e) => "CASE WHEN " + Show(source) + " IS NOT NULL THEN " + Show(e) + " END"
  }

  // ---- tokens ----

  function W(word: string): Piece { Tok(Word(word)) }

  function M(mark: string): Piece { Tok(Mark(mark)) }

  const CASE_WHEN := [W("CASE"), Space, W("WHEN"), Space]
  const IS_NOT_NULL_THEN := [Space, W("IS"), Space, W("NOT"), Space, W("NULL"), Space, W("THEN"), Space]

  /** The tokens of an expression, with the spaces it is written with. */
  function Pieces(x: Expr): seq<Piece> {
    match x
    case Literal(text) => [Tok(Str(text))]
    case Empty => [EmptyLiteral]
    case Int(n) => [Tok(Number(n))]
    case Field(alias, name) => (if alias == "" then [] else [W(alias), M(".")]) + [Tok(Name(name))]
    case ChunkText(alias) => [W(alias), M("."), W("chunk_text")]
    case AsText(e) => Pieces(e) + [M("::"), W("text")]
    case AsBigint(e) => Pieces(e) + [M("::"), W("bigint")]
    case Coalesce(e, fallback) => [W("COALESCE"), M("(")] + Pieces(e) + [M(","), Space] + Pieces(fallback) + [M(")")]
    case OctetLength(e) => [W("octet_length"), M("(")] + Pieces(e) + [M(")")]
    case Concat(left, right) => Pieces(left) + [Space, M("||"), Space] + Pieces(right)
    case Add(left, right) => Pieces(left) + [Space, M("+"), Space] + Pieces(right)
    case WhenPresent(source, e) => CASE_WHEN + Pieces(source) + IS_NOT_NULL_THEN + Pieces(e) + [Space, W("END")]
  }

  /** Column names are not empty and aliases are plain words or absent. */
  predicate Clean(x: Expr) {
    match x
    case Field(alias, name) => (alias == "" || IsWord(alias)) && name != ""
    case ChunkText(alias) => IsWord(alias)
    case AsText(e) => Clean(e)
    case AsBigint(e) => Clean(e)
    case Coalesce(e, fallback) => Clean(e) && Clean(fallback)
    case OctetLength(e) => Clean(e)
    case Concat(left, right) => Clean(left) && Clean(right)
    case Add(left, right) => Clean(left) && Clean(right)
    case WhenPresent(source, e) => Clean(source) && Clean(e)
    case _ => true
  }

  // ---- the text spells the tokens ----

  lemma SpellCons(p: Piece, rest: seq<Piece>)
    ensures SpellAll([p] + rest) == Spell(p) + SpellAll(rest)
  {
    assert ([p] + rest)[1..] == rest;
  }

  lemma SpellTwo(p: Piece, q: Piece)
    ensures SpellAll([p, q]) == Spell(p) + Spell(q)
  {
    SpellOne(q);
    SpellCons(p, [q]);
    assert [p] + [q] == [p, q];
  }

  lemma SpellThree(p: Piece, q: Piece, r: Piece)
    ensures SpellAll([p, q, r]) == Spell(p) + Spell(q) + Spell(r)
  {
    SpellTwo(q, r);
    SpellCons(p, [q, r]);
    assert [p] + [q, r] == [p, q, r];
  }

  lemma CaseWhen()
    ensures SpellAll(CASE_WHEN) == "CASE WHEN "
  {
    hide SpellAll;
    SpellTwo(W("CASE"), Space);
    SpellTwo(W("WHEN"), Space);
    SpellConcat([W("CASE"), Space], [W("WHEN"), Space]);
    assert [W("CASE"), Space] + [W("WHEN"), Space] == CASE_WHEN;
  }

  lemma IsNotNullThen()
    ensures SpellAll(IS_NOT_NULL_THEN) == " IS NOT NULL THEN "
  {
    hide SpellAll;
    SpellThree(Space, W("IS"), Space);
    SpellThree(W("NOT"), Space, W("NULL"));
    SpellThree(Space, W("THEN"), Space);
    SpellConcat([Space, W("IS"), Space], [W("NOT"), Space, W("NULL")]);
    SpellConcat([Space, W("IS"), Space] + [W("NOT"), Space, W("NULL")], [Space, W("THEN"), Space]);
    assert [Space, W("IS"), Space] + [W("NOT"), Space, W("NULL")] + [Space, W("THEN"), Space] == IS_NOT_NULL_THEN;
  }

  lemma SpellSandwich(a: seq<Piece>, b: seq<Piece>, c: seq<Piece>)
    ensures SpellAll(a + b + c) == SpellAll(a) + SpellAll(b) + SpellAll(c)
  {
    SpellConcat(a, b);
    SpellConcat(a + b, c);
  }

  lemma LeafSpells(x: Expr)
    requires x.Literal? || x.Empty? || x.Int? || x.Field? || x.ChunkText?
    ensures Show(x) == SpellAll(Pieces(x))
  {
    hide SpellAll, Estring, QuoteIdent, Decimal;
    match x {
      case Literal(text) => SpellOne(Tok(Str(text)));
      case Empty => SpellOne(EmptyLiteral);
      case Int(n) => SpellOne(Tok(Number(n)));
      case Field(alias, name) =>
        SpellOne(Tok(Name(name)));
        if alias == "" {
          assert [] + [Tok(Name(name))] == [Tok(Name(name))];
          assert "" + QuoteIdent(name) == QuoteIdent(name);
        } else {
          SpellTwo(W(alias), M("."));
          SpellConcat([W(alias), M(".")], [Tok(Name(name))]);
        }
      case ChunkText(alias) =>
        SpellThree(W(alias), M("."), W("chunk_text"));
        assert alias + "." + "chunk_text" == alias + ".chunk_text";
    }
  }

  /** The text of an expression is its pieces, written out. */
  lemma {:induction false} ShowSpells(x: Expr)
    ensures Show(x) == SpellAll(Pieces(x))
  {
    hide SpellAll, Pieces, Estring, QuoteIdent, Decimal, Prefix;
    match x {
      case AsText(e) =>
        ShowSpells(e);
        CastSpells(x);
      case AsBigint(e) =>
        ShowSpells(e);
        CastSpells(x);
      case Coalesce(e, fallback) =>
        ShowSpells(e);
        ShowSpells(fallback);
        CoalesceSpells(x);
      case OctetLength(e) =>
        ShowSpells(e);
        CallSpells(x);
      case Concat(left, right) =>
        ShowSpells(left);
        ShowSpells(right);
        OperatorSpells(x);
      case Add(left, right) =>
        ShowSpells(left);
        ShowSpells(right);
        OperatorSpells(x);
      case WhenPresent(source, e) =>
        ShowSpells(source);
        ShowSpells(e);
        WhenPresentSpells(x);
      case _ => LeafSpells(x);
    }
  }

  lemma CastSpells(x: Expr)
    ensures x.AsText? ==> SpellAll(Pieces(x)) == SpellAll(Pieces(x.e)) + "::text"
    ensures x.AsBigint? ==> SpellAll(Pieces(x)) == SpellAll(Pieces(x.e)) + "::bigint"
  {
    hide SpellAll, Pieces;
    PieceShape(x);
    SpellTwo(M("::"), W("text"));
    SpellTwo(M("::"), W("bigint"));
    if x.AsText? { SpellConcat(Pieces(x.e), [M("::"), W("text")]); }
    if x.AsBigint? { SpellConcat(Pieces(x.e), [M("::"), W("bigint")]); }
  }

  lemma CallSpells(x: Expr)
    requires x.OctetLength?
    ensures SpellAll(Pieces(x)) == "octet_length(" + SpellAll(Pieces(x.e)) + ")"
  {
    hide SpellAll, Pieces;
    PieceShape(x);
    SpellTwo(W("octet_length"), M("("));
    SpellOne(M(")"));
    SpellSandwich([W("octet_length"), M("(")], Pieces(x.e), [M(")")]);
  }

  lemma OperatorSpells(x: Expr)
    ensures x.Concat? ==> SpellAll(Pieces(x)) == SpellAll(Pieces(x.left)) + " || " + SpellAll(Pieces(x.right))
    ensures x.Add? ==> SpellAll(Pieces(x)) == SpellAll(Pieces(x.left)) + " + " + SpellAll(Pieces(x.right))
  {
    hide SpellAll, Pieces;
    PieceShape(x);
    SpellThree(Space, M("||"), Space);
    SpellThree(Space, M("+"), Space);
    if x.Concat? { SpellSandwich(Pieces(x.left), [Space, M("||"), Space], Pieces(x.right)); }
    if x.Add? { SpellSandwich(Pieces(x.left), [Space, M("+"), Space], Pieces(x.right)); }
  }

  lemma CoalesceSpells(x: Expr)
    requires x.Coalesce?
    ensures SpellAll(Pieces(x)) == "COALESCE(" + SpellAll(Pieces(x.e)) + ", " + SpellAll(Pieces(x.fallback)) + ")"
  {
    hide SpellAll, Pieces;
    PieceShape(x);
    SpellTwo(W("COALESCE"), M("("));
    SpellTwo(M(","), Space);
    SpellOne(M(")"));
    SpellSandwich([W("COALESCE"), M("(")], Pieces(x.e), [M(","), Space]);
    SpellSandwich([W("COALESCE"), M("(")] + Pieces(x.e) + [M(","), Space], Pieces(x.fallback), [M(")")]);
  }

  lemma WhenPresentSpells(x: Expr)
    requires x.WhenPresent?
    ensures SpellAll(Pieces(x)) ==
            "CASE WHEN " + SpellAll(Pieces(x.source)) + " IS NOT NULL THEN " + SpellAll(Pieces(x.e)) + " END"
  {
    hide SpellAll, Pieces;
    PieceShape(x);
    CaseWhen();
    IsNotNullThen();
    SpellTwo(Space, W("END"));
    SpellSandwich(CASE_WHEN, Pieces(x.source), IS_NOT_NULL_THEN);
    SpellSandwich(CASE_WHEN + Pieces(x.source) + IS_NOT_NULL_THEN, Pieces(x.e), [Space, W("END")]);
  }

  // ---- the tokens stay apart ----

  /** Every mark or space the fragment puts after an expression may follow this piece. */
  predicate Closes(p: Piece) { Stops(p, ' ') && Stops(p, ',') && Stops(p, ')') && Stops(p, ':') }

  /** Anything may follow this piece. */
  predicate Loose(p: Piece) { p == Space || p == M("(") }

  predicate Closer(p: Piece) { p == Space || p == M(",") || p == M(")") || p == M("::") }

  /** A separate piece sequence that an expression can be read from. */
  predicate Whole(ps: seq<Piece>) { Separate(ps) && ps != [] && Closes(ps[|ps| - 1]) }

  lemma AfterWhole(ps: seq<Piece>, more: seq<Piece>)
    requires Whole(ps) && Separate(more) && more != [] && Closer(more[0])
    ensures Separate(ps + more)
  {
    hide Separate;
    SeparateConcat(ps, more);
  }

  lemma BeforeWhole(before: seq<Piece>, ps: seq<Piece>)
    requires Separate(before) && before != [] && Loose(before[|before| - 1]) && Whole(ps)
    ensures Whole(before + ps)
  {
    hide Separate;
    SeparateConcat(before, ps);
    assert (before + ps)[|before + ps| - 1] == ps[|ps| - 1];
  }

  /** A mark or space after an expression, and then one more expression. */
  lemma Between(left: seq<Piece>, mid: seq<Piece>, right: seq<Piece>)
    requires Whole(left) && Whole(right) && Separate(mid) && mid != [] && Closer(mid[0]) && Loose(mid[|mid| - 1])
    ensures Whole(left + mid + right)
  {
    hide Separate, Closes, Loose, Closer;
    AfterWhole(left, mid);
    assert (left + mid)[|left + mid| - 1] == mid[|mid| - 1];
    BeforeWhole(left + mid, right);
  }

  lemma Trailing(left: seq<Piece>, end: seq<Piece>)
    requires Whole(left) && Whole(end) && Closer(end[0])
    ensures Whole(left + end)
  {
    hide Separate, Closes, Closer;
    AfterWhole(left, end);
    assert (left + end)[|left + end| - 1] == end[|end| - 1];
  }

  lemma SeparateOne(p: Piece)
    requires WellFormed(p)
    ensures Separate([p])
  {
  }

  lemma SeparateTwo(p: Piece, q: Piece)
    requires WellFormed(p) && WellFormed(q) && Apart(p, q)
    ensures Separate([p, q])
  {
  }

  lemma SeparateThree(p: Piece, q: Piece, r: Piece)
    requires WellFormed(p) && WellFormed(q) && WellFormed(r) && Apart(p, q) && Apart(q, r)
    ensures Separate([p, q, r])
  {
  }

  lemma SeparateKeywords()
    ensures Separate(CASE_WHEN) && Separate(IS_NOT_NULL_THEN)
  {
    hide Separate;
    SeparateTwo(W("CASE"), Space);
    SeparateTwo(W("WHEN"), Space);
    SeparateConcat([W("CASE"), Space], [W("WHEN"), Space]);
    assert [W("CASE"), Space] + [W("WHEN"), Space] == CASE_WHEN;
    SeparateTest();
  }

  lemma SeparateTest()
    ensures Separate(IS_NOT_NULL_THEN)
  {
    hide Separate;
    SeparateThree(Space, W("IS"), Space);
    SeparateThree(W("NOT"), Space, W("NULL"));
    SeparateThree(Space, W("THEN"), Space);
    SeparateConcat([Space, W("IS"), Space], [W("NOT"), Space, W("NULL")]);
    SeparateConcat([Space, W("IS"), Space] + [W("NOT"), Space, W("NULL")], [Space, W("THEN"), Space]);
    assert [Space, W("IS"), Space] + [W("NOT"), Space, W("NULL")] + [Space, W("THEN"), Space] == IS_NOT_NULL_THEN;
  }

  lemma SeparateMarks()
    ensures Separate([W("COALESCE"), M("(")]) && Separate([W("octet_length"), M("(")]) && Separate([M(","), Space])
    ensures Separate([Space, M("||"), Space]) && Separate([Space, M("+"), Space])
  {
    hide Separate;
    SeparateTwo(W("COALESCE"), M("("));
    SeparateTwo(W("octet_length"), M("("));
    SeparateTwo(M(","), Space);
    SeparateThree(Space, M("||"), Space);
    SeparateThree(Space, M("+"), Space);
  }

  lemma WholeEnds()
    ensures Whole([Space, W("END")]) && Whole([M(")")])
    ensures Whole([M("::"), W("text")]) && Whole([M("::"), W("bigint")])
  {
    hide Separate;
    SeparateTwo(Space, W("END"));
    SeparateOne(M(")"));
    SeparateTwo(M("::"), W("text"));
    SeparateTwo(M("::"), W("bigint"));
  }

  lemma LeafWhole(x: Expr)
    requires Clean(x) && (x.Literal? || x.Empty? || x.Int? || x.Field? || x.ChunkText?)
    ensures Whole(Pieces(x))
  {
    hide Decimal, Estring, Quote;
  }

  /** The pieces of every clean expression stay apart. */
  lemma {:induction false} PiecesWhole(x: Expr)
    requires Clean(x)
    ensures Whole(Pieces(x))
  {
    hide Whole, Separate, Pieces;
    SeparateKeywords();
    SeparateMarks();
    WholeEnds();
    PieceShape(x);
    match x {
      case AsText(e) =>
        PiecesWhole(e);
        Trailing(Pieces(e), [M("::"), W("text")]);
      case AsBigint(e) =>
        PiecesWhole(e);
        Trailing(Pieces(e), [M("::"), W("bigint")]);
      case Coalesce(e, fallback) =>
        PiecesWhole(e);
        PiecesWhole(fallback);
        var open := [W("COALESCE"), M("(")];
        BeforeWhole(open, Pieces(e));
        Between(open + Pieces(e), [M(","), Space], Pieces(fallback));
        Trailing(open + Pieces(e) + [M(","), Space] + Pieces(fallback), [M(")")]);
      case OctetLength(e) =>
        PiecesWhole(e);
        BeforeWhole([W("octet_length"), M("(")], Pieces(e));
        Trailing([W("octet_length"), M("(")] + Pieces(e), [M(")")]);
      case Concat(left, right) =>
        PiecesWhole(left);
        PiecesWhole(right);
        Between(Pieces(left), [Space, M("||"), Space], Pieces(right));
      case Add(left, right) =>
        PiecesWhole(left);
        PiecesWhole(right);
        Between(Pieces(left), [Space, M("+"), Space], Pieces(right));
      case WhenPresent(source, e) =>
        PiecesWhole(source);
        PiecesWhole(e);
        BeforeWhole(CASE_WHEN, Pieces(source));
        Between(CASE_WHEN + Pieces(source), IS_NOT_NULL_THEN, Pieces(e));
        Trailing(CASE_WHEN + Pieces(source) + IS_NOT_NULL_THEN + Pieces(e), [Space, W("END")]);
      case _ => LeafWhole(x);
    }
  }

  lemma PieceShape(x: Expr)
    ensures x.AsText? ==> Pieces(x) == Pieces(x.e) + [M("::"), W("text")]
    ensures x.AsBigint? ==> Pieces(x) == Pieces(x.e) + [M("::"), W("bigint")]
    ensures x.Coalesce? ==> Pieces(x) == [W("COALESCE"), M("(")] + Pieces(x.e) + [M(","), Space] + Pieces(x.fallback) + [M(")")]
    ensures x.OctetLength? ==> Pieces(x) == [W("octet_length"), M("(")] + Pieces(x.e) + [M(")")]
    ensures x.Concat? ==> Pieces(x) == Pieces(x.left) + [Space, M("||"), Space] + Pieces(x.right)
    ensures x.Add? ==> Pieces(x) == Pieces(x.left) + [Space, M("+"), Space] + Pieces(x.right)
    ensures x.WhenPresent? ==>
              Pieces(x) == CASE_WHEN + Pieces(x.source) + IS_NOT_NULL_THEN + Pieces(x.e) + [Space, W("END")]
  {
  }

  /** The text of a clean expression reads back as exactly its tokens, under either setting. */
  lemma ShowReadsBack(x: Expr, conforming: bool)
    requires Clean(x)
    ensures LexSql(Show(x), conforming) == Tokens(Meanings(Pieces(x)))
  {
    hide LexSql, Show, Pieces, Meanings, SpellAll, Separate;
    ShowSpells(x);
    PiecesWhole(x);
    PiecesLex(Pieces(x), conforming);
  }

  // ---- values ----

  datatype Value = Null | Txt(text: string) | Num(n: int)

  /** The columns of a source row that are not NULL, as text, and the chunk joined to it. */
  datatype Row = Row(columns: map<string, string>, chunk: string)

  function Measured(v: Value): Value { if v.Txt? then Num(Bytes(v.text)) else Null }

  function Joined(a: Value, b: Value): Value { if a.Txt? && b.Txt? then Txt(a.text + b.text) else Null }

  function Added(a: Value, b: Value): Value { if a.Num? && b.Num? then Num(a.n + b.n) else Null }

  /** The value of an expression on a row, by the rules of SQL for NULL. */
  function Eval(x: Expr, row: Row): Value {
    match x
    case Literal(text) => Txt(text)
    case Empty => Txt("")
    case Int(n) => Num(n)
    case Field(_, name) => if name in row.columns then Txt(row.columns[name]) else Null
    case ChunkText(_) => Txt(row.chunk)
    case AsText(e) => Eval(e, row)
    case AsBigint(e) => Eval(e, row)
    case Coalesce(e, fallback) => if Eval(e, row) == Null then Eval(fallback, row) else Eval(e, row)
    case OctetLength(e) => Measured(Eval(e, row))
    case Concat(left, right) => Joined(Eval(left, row), Eval(right, row))
    case Add(left, right) => Added(Eval(left, row), Eval(right, row))
    case WhenPresent(source, e) => if Eval(source, row) == Null then Null else Eval(e, row)
  }
}

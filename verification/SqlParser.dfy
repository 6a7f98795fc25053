/** The grouping rules of PostgreSQL for the SQL fragment the renderers emit (section 4.1.6 of the
    PostgreSQL manual): a cast binds tighter than `+`, which binds tighter than `||`, and all group
    to the left. */
module SqlParser {
  import opened SqlLexer
  import opened SqlPieces
  import opened SqlExpr

  datatype Parsed = Fail | Got(x: Expr, rest: seq<Token>)

  predicate At(ts: seq<Token>, i: nat, t: Token) { i < |ts| && ts[i] == t }

  // ---- the parser ----

  function ParseExpr(ts: seq<Token>): (r: Parsed)
    ensures r.Got? ==> |r.rest| < |ts|
    decreases |ts|, 3
  {
    var left := ParseSum(ts);
    if left.Fail? then Fail else ConcatTail(left.x, left.rest)
  }

  function ConcatTail(left: Expr, ts: seq<Token>): (r: Parsed)
    ensures r.Got? ==> |r.rest| <= |ts|
    decreases |ts|, 0
  {
    if !At(ts, 0, Mark("||")) then Got(left, ts)
    else
      var right := ParseSum(ts[1..]);
      if right.Fail? then Fail else ConcatTail(Concat(left, right.x), right.rest)
  }

  function ParseSum(ts: seq<Token>): (r: Parsed)
    ensures r.Got? ==> |r.rest| < |ts|
    decreases |ts|, 2
  {
    var left := ParseCast(ts);
    if left.Fail? then Fail else SumTail(left.x, left.rest)
  }

  function SumTail(left: Expr, ts: seq<Token>): (r: Parsed)
    ensures r.Got? ==> |r.rest| <= |ts|
    decreases |ts|, 0
  {
    if !At(ts, 0, Mark("+")) then Got(left, ts)
    else
      var right := ParseCast(ts[1..]);
      if right.Fail? then Fail else SumTail(Add(left, right.x), right.rest)
  }

  function ParseCast(ts: seq<Token>): (r: Parsed)
    ensures r.Got? ==> |r.rest| < |ts|
    decreases |ts|, 1
  {
    var e := ParsePrimary(ts);
    if e.Fail? then Fail else CastTail(e.x, e.rest)
  }

  function CastTail(e: Expr, ts: seq<Token>): (r: Parsed)
    ensures r.Got? ==> |r.rest| <= |ts|
    decreases |ts|, 0
  {
    if !At(ts, 0, Mark("::")) then Got(e, ts)
    else if At(ts, 1, Word("text")) then CastTail(AsText(e), ts[2..])
    else if At(ts, 1, Word("bigint")) then CastTail(AsBigint(e), ts[2..])
    else Fail
  }

  function ParsePrimary(ts: seq<Token>): (r: Parsed)
    ensures r.Got? ==> |r.rest| < |ts|
    decreases |ts|, 0
  {
    if ts == [] then Fail
    else match ts[0]
      case Str(text) => Got(if text == "" then Empty else Literal(text), ts[1..])
      case Number(n) => Got(Int(n), ts[1..])
      case Name(name) => Got(Field("", name), ts[1..])
      case Mark(m) => if m == "(" then Close(ParseExpr(ts[1..])) else Fail
      case Word(w) =>
        if At(ts, 1, Mark(".")) then ParseQualified(w, ts[2..])
        else if w == "COALESCE" && At(ts, 1, Mark("(")) then ParseCoalesce(ts[2..])
        else if w == "octet_length" && At(ts, 1, Mark("(")) then Measure(Close(ParseExpr(ts[2..])))
        else if w == "CASE" && At(ts, 1, Word("WHEN")) then ParseCase(ts[2..])
        else Fail
  }

  function ParseQualified(alias: string, ts: seq<Token>): (r: Parsed)
    ensures r.Got? ==> |r.rest| < |ts|
  {
    if ts == [] then Fail
    else match ts[0]
      case Name(name) => Got(Field(alias, name), ts[1..])
      case Word(w) => if w == "chunk_text" then Got(ChunkText(alias), ts[1..]) else Fail
      case _ => Fail
  }

  function Close(r: Parsed): (c: Parsed)
    ensures c.Got? ==> r.Got? && |c.rest| < |r.rest|
  {
    if r.Got? && At(r.rest, 0, Mark(")")) then Got(r.x, r.rest[1..]) else Fail
  }

  function Measure(r: Parsed): Parsed { if r.Fail? then Fail else Got(OctetLength(r.x), r.rest) }

  function ParseCoalesce(ts: seq<Token>): (r: Parsed)
    ensures r.Got? ==> |r.rest| < |ts|
    decreases |ts|, 4
  {
    var e := ParseExpr(ts);
    if e.Fail? || !At(e.rest, 0, Mark(",")) then Fail
    else
      var fallback := Close(ParseExpr(e.rest[1..]));
      if fallback.Fail? then Fail else Got(Coalesce(e.x, fallback.x), fallback.rest)
  }

  function ParseCase(ts: seq<Token>): (r: Parsed)
    ensures r.Got? ==> |r.rest| < |ts|
    decreases |ts|, 4
  {
    var source := ParseExpr(ts);
    if source.Fail? || !([Word("IS"), Word("NOT"), Word("NULL"), Word("THEN")] <= source.rest) then Fail
    else
      var e := ParseExpr(source.rest[4..]);
      if e.Fail? || !At(e.rest, 0, Word("END")) then Fail else Got(WhenPresent(source.x, e.x), e.rest[1..])
  }

  // ---- the tokens of an expression ----

  function Toks(x: Expr): seq<Token> {
    match x
    case Literal(text) => [Str(text)]
    case Empty => [Str("")]
    case Int(n) => [Number(n)]
    case Field(alias, name) => (if alias == "" then [] else [Word(alias), Mark(".")]) + [Name(name)]
    case ChunkText(alias) => [Word(alias), Mark("."), Word("chunk_text")]
    case AsText(e) => Toks(e) + [Mark("::"), Word("text")]
    case AsBigint(e) => Toks(e) + [Mark("::"), Word("bigint")]
    case Coalesce(e, fallback) => [Word("COALESCE"), Mark("(")] + Toks(e) + [Mark(",")] + Toks(fallback) + [Mark(")")]
    case OctetLength(e) => [Word("octet_length"), Mark("(")] + Toks(e) + [Mark(")")]
    case Concat(left, right) => Toks(left) + [Mark("||")] + Toks(right)
    case Add(left, right) => Toks(left) + [Mark("+")] + Toks(right)
    case WhenPresent(source, e) =>
      [Word("CASE"), Word("WHEN")] + Toks(source) + [Word("IS"), Word("NOT"), Word("NULL"), Word("THEN")] + Toks(e) + [Word("END")]
  }

  lemma {:induction false} MeaningsConcat(a: seq<Piece>, b: seq<Piece>)
    ensures Meanings(a + b) == Meanings(a) + Meanings(b)
  {
    if a == [] {
      assert a + b == b;
    } else {
      assert (a + b)[1..] == a[1..] + b;
      MeaningsConcat(a[1..], b);
    }
  }

  lemma MeaningsCons(p: Piece, rest: seq<Piece>)
    ensures Meanings([p] + rest) == Meaning(p) + Meanings(rest)
  {
    assert ([p] + rest)[1..] == rest;
  }

  lemma MeansOne(p: Piece)
    ensures Meanings([p]) == Meaning(p)
  {
    MeaningsCons(p, []);
    assert [p] + [] == [p];
  }

  lemma MeansTwo(p: Piece, q: Piece)
    ensures Meanings([p, q]) == Meaning(p) + Meaning(q)
  {
    MeansOne(q);
    MeaningsCons(p, [q]);
    assert [p] + [q] == [p, q];
  }

  lemma MeansThree(p: Piece, q: Piece, r: Piece)
    ensures Meanings([p, q, r]) == Meaning(p) + Meaning(q) + Meaning(r)
  {
    MeansTwo(q, r);
    MeaningsCons(p, [q, r]);
    assert [p] + [q, r] == [p, q, r];
  }

  lemma MeansKeywords()
    ensures Meanings(CASE_WHEN) == [Word("CASE"), Word("WHEN")]
    ensures Meanings(IS_NOT_NULL_THEN) == [Word("IS"), Word("NOT"), Word("NULL"), Word("THEN")]
  {
    hide Meanings;
    MeansTwo(W("CASE"), Space);
    MeansTwo(W("WHEN"), Space);
    MeaningsConcat([W("CASE"), Space], [W("WHEN"), Space]);
    assert [W("CASE"), Space] + [W("WHEN"), Space] == CASE_WHEN;
    MeansThree(Space, W("IS"), Space);
    MeansThree(W("NOT"), Space, W("NULL"));
    MeansThree(Space, W("THEN"), Space);
    MeaningsConcat([Space, W("IS"), Space], [W("NOT"), Space, W("NULL")]);
    MeaningsConcat([Space, W("IS"), Space] + [W("NOT"), Space, W("NULL")], [Space, W("THEN"), Space]);
    assert [Space, W("IS"), Space] + [W("NOT"), Space, W("NULL")] + [Space, W("THEN"), Space] == IS_NOT_NULL_THEN;
  }

  lemma MeansSandwich(a: seq<Piece>, b: seq<Piece>, c: seq<Piece>)
    ensures Meanings(a + b + c) == Meanings(a) + Meanings(b) + Meanings(c)
  {
    MeaningsConcat(a, b);
    MeaningsConcat(a + b, c);
  }

  lemma MeansLeaf(x: Expr)
    requires x.Literal? || x.Empty? || x.Int? || x.Field? || x.ChunkText?
    ensures Meanings(Pieces(x)) == Toks(x)
  {
    hide Meanings;
    match x {
      case Literal(text) => MeansOne(Tok(Str(text)));
      case Empty => MeansOne(EmptyLiteral);
      case Int(n) => MeansOne(Tok(Number(n)));
      case Field(alias, name) =>
        MeansOne(Tok(Name(name)));
        MeansTwo(W(alias), M("."));
        MeaningsConcat([W(alias), M(".")], [Tok(Name(name))]);
        assert [] + [Tok(Name(name))] == [Tok(Name(name))] && [] + [Name(name)] == [Name(name)];
      case ChunkText(alias) => MeansThree(W(alias), M("."), W("chunk_text"));
    }
  }

  lemma MeansCast(x: Expr)
    requires x.AsText? || x.AsBigint?
    ensures Meanings(Pieces(x)) == Meanings(Pieces(x.e)) + [Mark("::"), Word(if x.AsText? then "text" else "bigint")]
  {
    hide Meanings, Pieces;
    PieceShape(x);
    MeansTwo(M("::"), W("text"));
    MeansTwo(M("::"), W("bigint"));
    MeaningsConcat(Pieces(x.e), [M("::"), W(if x.AsText? then "text" else "bigint")]);
  }

  lemma MeansOperator(x: Expr)
    requires x.Concat? || x.Add?
    ensures Meanings(Pieces(x)) == Meanings(Pieces(x.left)) + [Mark(if x.Add? then "+" else "||")] + Meanings(Pieces(x.right))
  {
    hide Meanings, Pieces;
    PieceShape(x);
    MeansThree(Space, M("||"), Space);
    MeansThree(Space, M("+"), Space);
    MeansSandwich(Pieces(x.left), [Space, M(if x.Add? then "+" else "||"), Space], Pieces(x.right));
  }

  lemma MeansCoalesce(x: Expr)
    requires x.Coalesce?
    ensures Meanings(Pieces(x)) ==
            [Word("COALESCE"), Mark("(")] + Meanings(Pieces(x.e)) + [Mark(",")] + Meanings(Pieces(x.fallback)) + [Mark(")")]
  {
    hide Meanings, Pieces;
    PieceShape(x);
    var open := [W("COALESCE"), M("(")];
    MeansTwo(W("COALESCE"), M("("));
    MeansTwo(M(","), Space);
    MeansOne(M(")"));
    MeansSandwich(open, Pieces(x.e), [M(","), Space]);
    MeansSandwich(open + Pieces(x.e) + [M(","), Space], Pieces(x.fallback), [M(")")]);
  }

  lemma MeansLength(x: Expr)
    requires x.OctetLength?
    ensures Meanings(Pieces(x)) == [Word("octet_length"), Mark("(")] + Meanings(Pieces(x.e)) + [Mark(")")]
  {
    hide Meanings, Pieces;
    PieceShape(x);
    MeansTwo(W("octet_length"), M("("));
    MeansOne(M(")"));
    MeansSandwich([W("octet_length"), M("(")], Pieces(x.e), [M(")")]);
  }

  lemma MeansCase(x: Expr)
    requires x.WhenPresent?
    ensures Meanings(Pieces(x)) ==
            [Word("CASE"), Word("WHEN")] + Meanings(Pieces(x.source))
            + [Word("IS"), Word("NOT"), Word("NULL"), Word("THEN")] + Meanings(Pieces(x.e)) + [Word("END")]
  {
    hide Meanings, Pieces;
    PieceShape(x);
    MeansKeywords();
    MeansTwo(Space, W("END"));
    MeansSandwich(CASE_WHEN, Pieces(x.source), IS_NOT_NULL_THEN);
    MeansSandwich(CASE_WHEN + Pieces(x.source) + IS_NOT_NULL_THEN, Pieces(x.e), [Space, W("END")]);
  }

  /** The tokens an expression is written with are its own. */
  lemma {:induction false} MeansTokens(x: Expr)
    ensures Meanings(Pieces(x)) == Toks(x)
  {
    hide Meanings, Pieces;
    match x {
      case AsText(e) =>
        MeansTokens(e);
        MeansCast(x);
      case AsBigint(e) =>
        MeansTokens(e);
        MeansCast(x);
      case Coalesce(e, fallback) =>
        MeansTokens(e);
        MeansTokens(fallback);
        MeansCoalesce(x);
      case OctetLength(e) =>
        MeansTokens(e);
        MeansLength(x);
      case Concat(left, right) =>
        MeansTokens(left);
        MeansTokens(right);
        MeansOperator(x);
      case Add(left, right) =>
        MeansTokens(left);
        MeansTokens(right);
        MeansOperator(x);
      case WhenPresent(source, e) =>
        MeansTokens(source);
        MeansTokens(e);
        MeansCase(x);
      case _ => MeansLeaf(x);
    }
  }

  // ---- trees that are written as they group ----

  predicate IsPrimary(x: Expr)
    decreases x, 0
  {
    match x
    case Literal(text) => text != ""
    case Coalesce(e, fallback) => Grouped(e) && Grouped(fallback)
    case OctetLength(e) => Grouped(e)
    case WhenPresent(source, e) => Grouped(source) && Grouped(e)
    case AsText(_) => false
    case AsBigint(_) => false
    case Concat(_, _) => false
    case Add(_, _) => false
    case _ => true
  }

  predicate IsCast(x: Expr)
    decreases x, 1
  {
    if x.AsText? then IsCast(x.e) else if x.AsBigint? then IsCast(x.e) else IsPrimary(x)
  }

  predicate IsSum(x: Expr)
    decreases x, 2
  {
    if x.Add? then IsSum(x.left) && IsCast(x.right) else IsCast(x)
  }

  /** Written without parentheses, the expression groups back into itself. */
  predicate Grouped(x: Expr)
    decreases x, 3
  {
    if x.Concat? then Grouped(x.left) && IsSum(x.right) else IsSum(x)
  }

  // ---- every such tree is read back from its own tokens ----

  /** What may follow an expression: nothing that would be taken into it. */
  predicate Ends(rest: seq<Token>) {
    rest == [] || rest[0].Word? || rest[0] == Mark(",") || rest[0] == Mark(")")
  }

  predicate NoCast(rest: seq<Token>) { !At(rest, 0, Mark("::")) }

  predicate NoSum(rest: seq<Token>) { NoCast(rest) && !At(rest, 0, Mark("+")) }

  lemma LeafReads(x: Expr, rest: seq<Token>)
    requires IsPrimary(x) && (x.Literal? || x.Empty? || x.Int? || x.Field? || x.ChunkText?)
    ensures ParsePrimary(Toks(x) + rest) == Got(x, rest)
  {
    hide ParseExpr, ParseCoalesce, ParseCase;
    var ts := Toks(x) + rest;
    if x.Field? && x.alias != "" {
      assert ts == [Word(x.alias), Mark("."), Name(x.name)] + rest;
      assert ts[2..] == [Name(x.name)] + rest && ts[2..][1..] == rest;
    } else if x.ChunkText? {
      assert ts == [Word(x.alias), Mark("."), Word("chunk_text")] + rest;
      assert ts[2..] == [Word("chunk_text")] + rest && ts[2..][1..] == rest;
    } else {
      assert |Toks(x)| == 1 && ts[1..] == rest;
    }
  }

  lemma PrimaryReads(x: Expr, rest: seq<Token>)
    requires IsPrimary(x)
    ensures ParsePrimary(Toks(x) + rest) == Got(x, rest)
    decreases x, 0
  {
    hide ParsePrimary, Toks, ParseExpr;
    match x {
      case Coalesce(e, fallback) =>
        var after := [Mark(")")] + rest;
        ExprReads(fallback, after);
        ExprReads(e, [Mark(",")] + (Toks(fallback) + after));
        CoalesceReads(x, rest);
      case OctetLength(e) =>
        ExprReads(e, [Mark(")")] + rest);
        LengthReads(x, rest);
      case WhenPresent(source, e) =>
        var after := [Word("END")] + rest;
        ExprReads(e, after);
        ExprReads(source, [Word("IS"), Word("NOT"), Word("NULL"), Word("THEN")] + (Toks(e) + after));
        CaseReads(x, rest);
      case _ => LeafReads(x, rest);
    }
  }

  lemma CoalesceReads(x: Expr, rest: seq<Token>)
    requires x.Coalesce?
    requires ParseExpr(Toks(x.fallback) + ([Mark(")")] + rest)) == Got(x.fallback, [Mark(")")] + rest)
    requires var more := [Mark(",")] + (Toks(x.fallback) + ([Mark(")")] + rest)); ParseExpr(Toks(x.e) + more) == Got(x.e, more)
    ensures ParsePrimary(Toks(x) + rest) == Got(x, rest)
  {
    hide ParseExpr, ParseCase;
    var ts, after := Toks(x) + rest, [Mark(")")] + rest;
    var more := [Mark(",")] + (Toks(x.fallback) + after);
    CoalesceTokens(x, rest);
    hide Toks;
    assert ts[2..] == Toks(x.e) + more;
    assert more[1..] == Toks(x.fallback) + after && after[1..] == rest;
  }

  lemma CoalesceTokens(x: Expr, rest: seq<Token>)
    requires x.Coalesce?
    ensures Toks(x) + rest ==
            [Word("COALESCE"), Mark("(")] + (Toks(x.e) + ([Mark(",")] + (Toks(x.fallback) + ([Mark(")")] + rest))))
  {
    var a, b := Toks(x.e), Toks(x.fallback);
    assert Toks(x) == [Word("COALESCE"), Mark("(")] + a + [Mark(",")] + b + [Mark(")")];
    hide Toks;
    Nest([Word("COALESCE"), Mark("(")], a, [Mark(",")], b, [Mark(")")], rest);
  }

  lemma Nest(a: seq<Token>, b: seq<Token>, c: seq<Token>, d: seq<Token>, e: seq<Token>, rest: seq<Token>)
    ensures a + b + c + d + e + rest == a + (b + (c + (d + (e + rest))))
  {
    assert a + b + c + d + e + rest == a + b + c + d + (e + rest);
    assert a + b + c + d + (e + rest) == a + b + c + (d + (e + rest));
    assert a + b + c + (d + (e + rest)) == a + b + (c + (d + (e + rest)));
  }

  lemma LengthReads(x: Expr, rest: seq<Token>)
    requires x.OctetLength?
    requires ParseExpr(Toks(x.e) + ([Mark(")")] + rest)) == Got(x.e, [Mark(")")] + rest)
    ensures ParsePrimary(Toks(x) + rest) == Got(x, rest)
  {
    hide ParseExpr, ParseCase, ParseCoalesce;
    var ts, after := Toks(x) + rest, [Mark(")")] + rest;
    assert ts == [Word("octet_length"), Mark("(")] + (Toks(x.e) + after);
    hide Toks;
    assert ts[2..] == Toks(x.e) + after && after[1..] == rest;
  }

  lemma CaseReads(x: Expr, rest: seq<Token>)
    requires x.WhenPresent?
    requires ParseExpr(Toks(x.e) + ([Word("END")] + rest)) == Got(x.e, [Word("END")] + rest)
    requires var more := [Word("IS"), Word("NOT"), Word("NULL"), Word("THEN")] + (Toks(x.e) + ([Word("END")] + rest));
             ParseExpr(Toks(x.source) + more) == Got(x.source, more)
    ensures ParsePrimary(Toks(x) + rest) == Got(x, rest)
  {
    hide ParseExpr, ParseCoalesce;
    var ts, after := Toks(x) + rest, [Word("END")] + rest;
    var more := [Word("IS"), Word("NOT"), Word("NULL"), Word("THEN")] + (Toks(x.e) + after);
    CaseTokens(x, rest);
    hide Toks;
    assert ts[2..] == Toks(x.source) + more;
    assert more[4..] == Toks(x.e) + after && after[1..] == rest;
  }

  lemma CaseTokens(x: Expr, rest: seq<Token>)
    requires x.WhenPresent?
    ensures Toks(x) + rest ==
            [Word("CASE"), Word("WHEN")] +
            (Toks(x.source) + ([Word("IS"), Word("NOT"), Word("NULL"), Word("THEN")] + (Toks(x.e) + ([Word("END")] + rest))))
  {
    var a, b, mid := Toks(x.source), Toks(x.e), [Word("IS"), Word("NOT"), Word("NULL"), Word("THEN")];
    assert Toks(x) == [Word("CASE"), Word("WHEN")] + a + mid + b + [Word("END")];
    hide Toks;
    Nest([Word("CASE"), Word("WHEN")], a, mid, b, [Word("END")], rest);
  }

  /** The tokens of a cast. */
  function CastMark(x: Expr): seq<Token> { [Mark("::"), Word(if x.AsText? then "text" else "bigint")] }

  lemma OneCast(x: Expr, rest: seq<Token>)
    requires x.AsText? || x.AsBigint?
    ensures CastTail(x.e, CastMark(x) + rest) == CastTail(x, rest)
  {
    assert (CastMark(x) + rest)[2..] == rest;
  }

  lemma CastTokens(x: Expr, rest: seq<Token>)
    requires x.AsText? || x.AsBigint?
    ensures Toks(x) + rest == Toks(x.e) + (CastMark(x) + rest)
  {
    assert Toks(x) == Toks(x.e) + CastMark(x);
    hide Toks, CastMark;
  }

  lemma UncastReads(ts: seq<Token>, x: Expr, rest: seq<Token>)
    requires ParsePrimary(ts) == Got(x, rest)
    ensures ParseCast(ts) == CastTail(x, rest)
  {
    hide ParsePrimary, CastTail;
  }

  lemma CastReads(x: Expr, rest: seq<Token>)
    requires IsCast(x)
    ensures ParseCast(Toks(x) + rest) == CastTail(x, rest)
    decreases x, 1
  {
    hide Toks, ParseCast, CastTail, ParsePrimary, CastMark, IsPrimary;
    if x.AsText? || x.AsBigint? {
      CastReads(x.e, CastMark(x) + rest);
      OneCast(x, rest);
      CastTokens(x, rest);
    } else {
      PrimaryReads(x, rest);
      UncastReads(Toks(x) + rest, x, rest);
    }
  }

  lemma SumReads(x: Expr, rest: seq<Token>)
    requires IsSum(x) && NoCast(rest)
    ensures ParseSum(Toks(x) + rest) == SumTail(x, rest)
    decreases x, 2
  {
    if x.Add? {
      var more := [Mark("+")] + (Toks(x.right) + rest);
      assert Toks(x) + rest == Toks(x.left) + more;
      hide Toks, ParseSum, ParseCast;
      SumReads(x.left, more);
      CastReads(x.right, rest);
      assert more[1..] == Toks(x.right) + rest;
    } else {
      hide Toks, ParseCast, SumTail;
      CastReads(x, rest);
    }
  }

  lemma ConcatReads(x: Expr, rest: seq<Token>)
    requires Grouped(x) && NoSum(rest)
    ensures ParseExpr(Toks(x) + rest) == ConcatTail(x, rest)
    decreases x, 3
  {
    if x.Concat? {
      var more := [Mark("||")] + (Toks(x.right) + rest);
      assert Toks(x) + rest == Toks(x.left) + more;
      hide Toks, ParseExpr, ParseSum;
      ConcatReads(x.left, more);
      SumReads(x.right, rest);
      assert more[1..] == Toks(x.right) + rest;
    } else {
      hide Toks, ParseSum, ConcatTail;
      SumReads(x, rest);
    }
  }

  /** An expression that groups as it is written is read back from its own tokens. */
  lemma ExprReads(x: Expr, rest: seq<Token>)
    requires Grouped(x) && Ends(rest)
    ensures ParseExpr(Toks(x) + rest) == Got(x, rest)
    decreases x, 4
  {
    hide ParseExpr, Toks;
    ConcatReads(x, rest);
  }

  // ---- from text to expression ----

  datatype Reading = Unreadable | Means(x: Expr)

  /** The expression a piece of SQL text is, under a setting of the lexer. */
  function ReadSql(text: string, conforming: bool): Reading {
    var lexed := LexSql(text, conforming);
    if lexed.Refused? then Unreadable
    else
      var r := ParseExpr(lexed.tokens);
      if r.Got? && r.rest == [] then Means(r.x) else Unreadable
  }

  /** The text of a clean expression that groups as it is written is that expression. */
  lemma ShowMeans(x: Expr, conforming: bool)
    requires Clean(x) && Grouped(x)
    ensures ReadSql(Show(x), conforming) == Means(x)
  {
    hide LexSql, Show, Pieces, Meanings, ParseExpr, Toks, Clean, Grouped;
    ShowReadsBack(x, conforming);
    MeansTokens(x);
    ExprReads(x, []);
    assert Toks(x) + [] == Toks(x);
  }
}

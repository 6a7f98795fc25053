/** The render and length expressions of a registry entry: as text, as expressions, and as values. */
module SqlRender {
  import opened Names
  import opened Text
  import Template
  import TemplateParser
  import TemplateImage
  import opened SqlLexer
  import opened SqlPieces
  import opened SqlExpr
  import opened SqlParser

  type Segment = Template.Segment

  /** The parts of a registry entry the renderers read. */
  datatype Entry = Entry(source: string, format: Option<string>)

  /** SQL text, or the failure a stored template that does not parse raises. */
  datatype Rendered = Sql(text: string) | InvalidTemplate

  /** Column mode, or chunk mode with the alias of the chunk row. */
  datatype Mode = Columns | Chunks(alias: string)

  // ---- the text ----

  /** One segment as SQL text. */
  function Part(seg: Segment, prefix: string, mode: Mode): string {
    match seg
    case Literal(text) => Estring(text)
    case Column(c) =>
      if mode.Chunks? && c == "chunk" then mode.alias + ".chunk_text"
      else "COALESCE(" + prefix + QuoteIdent(c) + "::text, '')"
  }

  /** The parts joined by the concatenation operator. */
  function Parts(segs: seq<Segment>, prefix: string, mode: Mode): string {
    if segs == [] then ""
    else if |segs| == 1 then Part(segs[0], prefix, mode)
    else Parts(segs[..|segs| - 1], prefix, mode) + " || " + Part(segs[|segs| - 1], prefix, mode)
  }

  function Anchored(entry: Entry, template: string, alias: string, mode: Mode): Rendered {
    match Template.Parse(template)
    case Err(_, _) => InvalidTemplate
    case Ok(segs) =>
      Sql("CASE WHEN " + (Prefix(alias) + QuoteIdent(entry.source)) + " IS NOT NULL THEN " +
          Parts(segs, Prefix(alias), mode) + " END")
  }

  function FormatExpr(entry: Entry, alias: string): Rendered {
    match entry.format
    case None => Sql(Prefix(alias) + QuoteIdent(entry.source) + "::text")
    case Some(template) => Anchored(entry, template, alias, Columns)
  }

  function ChunkFormatExpr(entry: Entry, sourceAlias: string, chunkAlias: string): Rendered {
    match entry.format
    case None => Sql(chunkAlias + ".chunk_text")
    case Some(template) => Anchored(entry, template, sourceAlias, Chunks(chunkAlias))
  }

  // ---- the expressions ----

  function PartTree(seg: Segment, alias: string, mode: Mode): Expr {
    match seg
    case Literal(text) => Literal(text)
    case Column(c) =>
      if mode.Chunks? && c == "chunk" then ChunkText(mode.alias) else Coalesce(AsText(Field(alias, c)), Empty)
  }

  function PartsTree(segs: seq<Segment>, alias: string, mode: Mode): Expr {
    if segs == [] then Empty
    else if |segs| == 1 then PartTree(segs[0], alias, mode)
    else Concat(PartsTree(segs[..|segs| - 1], alias, mode), PartTree(segs[|segs| - 1], alias, mode))
  }

  function LengthOfColumn(c: string, alias: string, mode: Mode): Expr {
    if mode.Chunks? && c == "chunk" then AsBigint(OctetLength(ChunkText(mode.alias)))
    else Coalesce(AsBigint(OctetLength(AsText(Field(alias, c)))), Int(0))
  }

  /** Bytes of the literal segments. */
  function LiteralBytes(segs: seq<Segment>): nat {
    if segs == [] then 0
    else LiteralBytes(segs[..|segs| - 1]) + (if segs[|segs| - 1].Literal? then Bytes(segs[|segs| - 1].text) else 0)
  }

  /** The length of each column reference, in order. */
  function Terms(segs: seq<Segment>, alias: string, mode: Mode): seq<Expr> {
    if segs == [] then []
    else Terms(segs[..|segs| - 1], alias, mode) +
         (if segs[|segs| - 1].Column? then [LengthOfColumn(segs[|segs| - 1].name, alias, mode)] else [])
  }

  function Sum(first: Expr, terms: seq<Expr>): Expr {
    if terms == [] then first else Add(Sum(first, terms[..|terms| - 1]), terms[|terms| - 1])
  }

  predicate Valid(entry: Entry) { entry.format.None? || Template.Parse(entry.format.value).Ok? }

  /** The expression an entry is rendered by. */
  function RenderTree(entry: Entry, alias: string, mode: Mode): Expr
    requires Valid(entry)
  {
    match entry.format
    case None => (match mode case Columns => AsText(Field(alias, entry.source)) case Chunks(c) => ChunkText(c))
    case Some(template) =>
      WhenPresent(Field(alias, entry.source), PartsTree(Template.Parse(template).segs, alias, mode))
  }

  /** The expression an entry is measured by. */
  function LengthTree(entry: Entry, alias: string, mode: Mode): Expr
    requires Valid(entry)
  {
    match entry.format
    case None =>
      AsBigint(OctetLength(match mode case Columns => AsText(Field(alias, entry.source)) case Chunks(c) => ChunkText(c)))
    case Some(template) =>
      var segs := Template.Parse(template).segs;
      WhenPresent(Field(alias, entry.source), Sum(AsBigint(Int(LiteralBytes(segs))), Terms(segs, alias, mode)))
  }

  // ---- the length expressions are built by loops ----

  /** The summed literal bytes and the terms of the column references. */
  method Measure(segs: seq<Segment>, alias: string, mode: Mode) returns (literalBytes: nat, terms: seq<string>)
    ensures literalBytes == LiteralBytes(segs)
    ensures |terms| == |Terms(segs, alias, mode)|
    ensures forall i :: 0 <= i < |terms| ==> terms[i] == Show(Terms(segs, alias, mode)[i])
  {
    hide Show, Bytes;
    literalBytes, terms := 0, [];
    for i := 0 to |segs|
      invariant literalBytes == LiteralBytes(segs[..i])
      invariant |terms| == |Terms(segs[..i], alias, mode)|
      invariant forall k :: 0 <= k < |terms| ==> terms[k] == Show(Terms(segs[..i], alias, mode)[k])
    {
      assert segs[..i + 1][..i] == segs[..i];
      match segs[i] {
        case Literal(text) =>
          var n := TemplateParser.ByteLength(text);
          literalBytes := literalBytes + n;
        case Column(c) =>
          var term := if mode.Chunks? && c == "chunk" then "octet_length(" + (mode.alias + ".chunk_text") + ")::bigint"
                      else "COALESCE(" + ("octet_length(" + (Prefix(alias) + QuoteIdent(c) + "::text") + ")::bigint") + ", 0)";
          TermShows(c, alias, mode);
          terms := terms + [term];
      }
    }
    assert segs[..|segs|] == segs;
  }

  lemma TermShows(c: string, alias: string, mode: Mode)
    ensures Show(LengthOfColumn(c, alias, mode)) ==
            if mode.Chunks? && c == "chunk" then "octet_length(" + (mode.alias + ".chunk_text") + ")::bigint"
            else "COALESCE(" + ("octet_length(" + (Prefix(alias) + QuoteIdent(c) + "::text") + ")::bigint") + ", 0)"
  {
    hide Show, QuoteIdent, Prefix;
    if mode.Chunks? && c == "chunk" {
      LengthShows(ChunkText(mode.alias));
      ChunkShows(mode.alias);
    } else {
      var field := AsText(Field(alias, c));
      FieldShows(alias, c);
      LengthShows(field);
      ZeroShows();
      OrZeroShows(AsBigint(OctetLength(field)));
    }
  }

  lemma ChunkShows(alias: string)
    ensures Show(ChunkText(alias)) == alias + ".chunk_text"
  {
  }

  lemma FieldShows(alias: string, name: string)
    ensures Show(AsText(Field(alias, name))) == Prefix(alias) + QuoteIdent(name) + "::text"
  {
  }

  lemma LengthShows(e: Expr)
    ensures Show(AsBigint(OctetLength(e))) == "octet_length(" + Show(e) + ")::bigint"
  {
    assert Show(OctetLength(e)) == "octet_length(" + Show(e) + ")";
  }

  lemma OrZeroShows(e: Expr)
    ensures Show(Coalesce(e, Int(0))) == "COALESCE(" + Show(e) + ", 0)"
  {
    ZeroShows();
    assert ", 0)" == ", " + "0" + ")";
  }

  lemma ZeroShows()
    ensures Show(Int(0)) == "0"
  {
  }

  /** The terms are appended one at a time. */
  method SumText(first: string, terms: seq<string>, ghost tree: Expr, ghost trees: seq<Expr>) returns (sum: string)
    requires first == Show(tree) && |terms| == |trees| && forall i :: 0 <= i < |terms| ==> terms[i] == Show(trees[i])
    ensures sum == Show(Sum(tree, trees))
  {
    sum := first;
    for i := 0 to |terms|
      invariant sum == Show(Sum(tree, trees[..i]))
    {
      assert trees[..i + 1][..i] == trees[..i];
      sum := sum + " + " + terms[i];
    }
    assert trees[..|trees|] == trees;
  }

  method MeasureAnchored(entry: Entry, template: string, alias: string, mode: Mode) returns (r: Rendered)
    requires entry.format == Some(template)
    ensures r == if Valid(entry) then Sql(Show(LengthTree(entry, alias, mode))) else InvalidTemplate
  {
    hide Show, Decimal, QuoteIdent, Terms, Sum, LiteralBytes;
    var parsed := TemplateParser.ParseFormat(template);
    if parsed.Err? { return InvalidTemplate; }
    var literalBytes, terms := Measure(parsed.segs, alias, mode);
    ghost var tree := AsBigint(Int(literalBytes));
    CountShows(literalBytes);
    var sum := SumText(Decimal(literalBytes) + "::bigint", terms, tree, Terms(parsed.segs, alias, mode));
    AnchorShows(alias, entry.source, Sum(tree, Terms(parsed.segs, alias, mode)));
    return Sql("CASE WHEN " + (Prefix(alias) + QuoteIdent(entry.source)) + " IS NOT NULL THEN " + sum + " END");
  }

  lemma CountShows(n: nat)
    ensures Show(AsBigint(Int(n))) == Decimal(n) + "::bigint"
  {
  }

  lemma AnchorShows(alias: string, source: string, e: Expr)
    ensures Show(WhenPresent(Field(alias, source), e)) ==
            "CASE WHEN " + (Prefix(alias) + QuoteIdent(source)) + " IS NOT NULL THEN " + Show(e) + " END"
  {
  }

  /** The column-mode length expression is the text of the length tree. */
  method FormatLenExpr(entry: Entry, alias: string) returns (r: Rendered)
    ensures r == if Valid(entry) then Sql(Show(LengthTree(entry, alias, Columns))) else InvalidTemplate
  {
    hide QuoteIdent, Prefix, Show;
    if entry.format.None? {
      FieldShows(alias, entry.source);
      LengthShows(AsText(Field(alias, entry.source)));
      return Sql("octet_length(" + (Prefix(alias) + QuoteIdent(entry.source)) + "::text" + ")::bigint");
    }
    r := MeasureAnchored(entry, entry.format.value, alias, Columns);
  }

  /** The chunk-mode length expression is the text of the length tree. */
  method ChunkFormatLenExpr(entry: Entry, sourceAlias: string, chunkAlias: string) returns (r: Rendered)
    ensures r == if Valid(entry) then Sql(Show(LengthTree(entry, sourceAlias, Chunks(chunkAlias)))) else InvalidTemplate
  {
    hide Show;
    if entry.format.None? {
      TermShows("chunk", sourceAlias, Chunks(chunkAlias));
      return Sql("octet_length(" + (chunkAlias + ".chunk_text") + ")::bigint");
    }
    r := MeasureAnchored(entry, entry.format.value, sourceAlias, Chunks(chunkAlias));
  }

  // ---- the render text is the text of the render tree ----

  lemma PartShows(seg: Segment, alias: string, mode: Mode)
    ensures Part(seg, Prefix(alias), mode) == Show(PartTree(seg, alias, mode))
  {
    hide Estring, QuoteIdent, Prefix;
    if seg.Column? && !(mode.Chunks? && seg.name == "chunk") {
      var field := AsText(Field(alias, seg.name));
      assert Show(field) == Prefix(alias) + QuoteIdent(seg.name) + "::text";
      assert Show(Coalesce(field, Empty)) == "COALESCE(" + (Prefix(alias) + QuoteIdent(seg.name) + "::text") + ", " + "''" + ")";
    }
  }

  lemma {:induction false} PartsShow(segs: seq<Segment>, alias: string, mode: Mode)
    requires segs != []
    ensures Parts(segs, Prefix(alias), mode) == Show(PartsTree(segs, alias, mode))
  {
    hide Part, PartTree;
    PartShows(segs[|segs| - 1], alias, mode);
    if |segs| > 1 {
      PartsShow(segs[..|segs| - 1], alias, mode);
    }
  }

  lemma ParsedNonEmpty(template: string)
    requires Template.Parse(template).Ok?
    ensures Template.Parse(template).segs != []
  {
    TemplateImage.ParsedIsCanonical(template);
  }

  lemma AnchoredShows(entry: Entry, template: string, alias: string, mode: Mode)
    requires entry.format == Some(template)
    ensures Anchored(entry, template, alias, mode) ==
            if Valid(entry) then Sql(Show(RenderTree(entry, alias, mode))) else InvalidTemplate
  {
    hide Show, Parts, PartsTree, QuoteIdent, Template.Parse;
    if Valid(entry) {
      var segs := Template.Parse(template).segs;
      ParsedNonEmpty(template);
      PartsShow(segs, alias, mode);
      AnchorShows(alias, entry.source, PartsTree(segs, alias, mode));
    }
  }

  /** Both render texts are the text of the render tree, and fail exactly where the template does. */
  lemma RendersTree(entry: Entry, alias: string, chunkAlias: string)
    ensures FormatExpr(entry, alias) ==
            if Valid(entry) then Sql(Show(RenderTree(entry, alias, Columns))) else InvalidTemplate
    ensures ChunkFormatExpr(entry, alias, chunkAlias) ==
            if Valid(entry) then Sql(Show(RenderTree(entry, alias, Chunks(chunkAlias)))) else InvalidTemplate
  {
    hide Anchored, QuoteIdent, Prefix, Template.Parse;
    if entry.format.Some? {
      AnchoredShows(entry, entry.format.value, alias, Columns);
      AnchoredShows(entry, entry.format.value, alias, Chunks(chunkAlias));
    }
  }

  // ---- the text reads back ----

  predicate CleanMode(alias: string, mode: Mode) {
    (alias == "" || IsWord(alias)) && (mode.Chunks? ==> IsWord(mode.alias))
  }

  /** An alias of letters, digits and underscores that does not start with a digit is clean, and with it
      every alias the callers pass. */
  lemma PlainAliasIsClean(alias: string)
    requires alias != [] && !('0' <= alias[0] <= '9')
    requires forall i :: 0 <= i < |alias| ==>
               'a' <= alias[i] <= 'z' || 'A' <= alias[i] <= 'Z' || alias[i] == '_' || '0' <= alias[i] <= '9'
    ensures CleanMode(alias, Columns) && CleanMode("", Columns) && CleanMode(alias, Chunks(alias))
  {
  }

  predicate Named(segs: seq<Segment>) {
    forall i :: 0 <= i < |segs| && segs[i].Column? ==> segs[i].name != ""
  }

  lemma ParsedNamed(template: string)
    requires Template.Parse(template).Ok?
    ensures Named(Template.Parse(template).segs)
  {
    TemplateImage.ParsedIsCanonical(template);
    var segs := Template.Parse(template).segs;
    forall i | 0 <= i < |segs| && segs[i].Column? ensures segs[i].name != "" {
      assert TemplateImage.NameSound(segs, i);
    }
  }

  lemma PartClean(seg: Segment, alias: string, mode: Mode)
    requires CleanMode(alias, mode) && (seg.Column? ==> seg.name != "")
    ensures Clean(PartTree(seg, alias, mode)) && (seg.Column? ==> Clean(LengthOfColumn(seg.name, alias, mode)))
  {
    hide IsWord;
    if seg.Column? {
      var field := AsText(Field(alias, seg.name));
      assert Clean(field);
      assert Clean(OctetLength(field));
      assert Clean(AsBigint(OctetLength(field)));
      if mode.Chunks? { assert Clean(OctetLength(ChunkText(mode.alias))); }
    }
  }

  lemma {:induction false} PartsClean(segs: seq<Segment>, alias: string, mode: Mode)
    requires CleanMode(alias, mode) && Named(segs)
    ensures Clean(PartsTree(segs, alias, mode))
  {
    hide IsWord;
    if segs != [] {
      PartClean(segs[|segs| - 1], alias, mode);
      PartsClean(segs[..|segs| - 1], alias, mode);
    }
  }

  lemma {:induction false} TermsClean(segs: seq<Segment>, alias: string, mode: Mode)
    requires CleanMode(alias, mode) && Named(segs)
    ensures forall i :: 0 <= i < |Terms(segs, alias, mode)| ==> Clean(Terms(segs, alias, mode)[i])
  {
    hide IsWord;
    if segs != [] {
      TermsClean(segs[..|segs| - 1], alias, mode);
      var last := segs[|segs| - 1];
      if last.Column? { PartClean(last, alias, mode); }
    }
  }

  lemma {:induction false} SumClean(first: Expr, terms: seq<Expr>)
    requires Clean(first) && forall i :: 0 <= i < |terms| ==> Clean(terms[i])
    ensures Clean(Sum(first, terms))
  {
    if terms != [] { SumClean(first, terms[..|terms| - 1]); }
  }

  lemma TreesClean(entry: Entry, alias: string, mode: Mode)
    requires Valid(entry) && entry.source != "" && CleanMode(alias, mode)
    ensures Clean(RenderTree(entry, alias, mode)) && Clean(LengthTree(entry, alias, mode))
  {
    hide IsWord, Template.Parse, Named, PartsTree, Terms, Sum, LiteralBytes;
    if entry.format.Some? {
      var segs := Template.Parse(entry.format.value).segs;
      ParsedNamed(entry.format.value);
      PartsClean(segs, alias, mode);
      TermsClean(segs, alias, mode);
      SumClean(AsBigint(Int(LiteralBytes(segs))), Terms(segs, alias, mode));
    }
  }

  /** Whatever the template and the column names hold, the SQL of every valid entry reads back as
      exactly the tokens of its expression, whichever way backslashes are set to behave. */
  lemma RenderedReadsBack(entry: Entry, alias: string, mode: Mode, conforming: bool)
    requires Valid(entry) && entry.source != "" && CleanMode(alias, mode)
    ensures LexSql(Show(RenderTree(entry, alias, mode)), conforming) == Tokens(Meanings(Pieces(RenderTree(entry, alias, mode))))
    ensures LexSql(Show(LengthTree(entry, alias, mode)), conforming) == Tokens(Meanings(Pieces(LengthTree(entry, alias, mode))))
  {
    hide Show, Clean, RenderTree, LengthTree, LexSql, Meanings, Pieces;
    TreesClean(entry, alias, mode);
    ShowReadsBack(RenderTree(entry, alias, mode), conforming);
    ShowReadsBack(LengthTree(entry, alias, mode), conforming);
  }

  // ---- values ----

  /** What one segment contributes on a row; a NULL column contributes nothing. */
  function TextOf(seg: Segment, row: Row, mode: Mode): string {
    match seg
    case Literal(text) => text
    case Column(c) =>
      if mode.Chunks? && c == "chunk" then row.chunk else if c in row.columns then row.columns[c] else ""
  }

  /** The rendered document of a template on a row. */
  function Document(segs: seq<Segment>, row: Row, mode: Mode): string {
    if segs == [] then "" else Document(segs[..|segs| - 1], row, mode) + TextOf(segs[|segs| - 1], row, mode)
  }

  lemma PartValue(seg: Segment, alias: string, mode: Mode, row: Row)
    ensures Eval(PartTree(seg, alias, mode), row) == Txt(TextOf(seg, row, mode))
  {
    if seg.Column? {
      var field := Field(alias, seg.name);
      assert Eval(AsText(field), row) == Eval(field, row);
    }
  }

  lemma {:induction false} PartsValue(segs: seq<Segment>, alias: string, mode: Mode, row: Row)
    ensures Eval(PartsTree(segs, alias, mode), row) == Txt(Document(segs, row, mode))
  {
    if segs != [] {
      var init, last := segs[..|segs| - 1], segs[|segs| - 1];
      PartsValue(init, alias, mode, row);
      PartValue(last, alias, mode, row);
      if |segs| == 1 {
        assert init == [] && "" + TextOf(last, row, mode) == TextOf(last, row, mode);
      }
    }
  }

  /** What an entry renders to on a row: with a template NULL exactly when the source column is (the
      lifecycle anchor), and otherwise the document; without one the source, or the chunk itself. */
  function Expected(entry: Entry, row: Row, mode: Mode): Value
    requires Valid(entry)
  {
    if entry.format.None? && mode.Chunks? then Txt(row.chunk)
    else if entry.source !in row.columns then Null
    else if entry.format.None? then Txt(row.columns[entry.source])
    else Txt(Document(Template.Parse(entry.format.value).segs, row, mode))
  }

  lemma RenderValue(entry: Entry, alias: string, mode: Mode, row: Row)
    requires Valid(entry)
    ensures Eval(RenderTree(entry, alias, mode), row) == Expected(entry, row, mode)
  {
    hide Template.Parse, PartsTree, Document;
    if entry.format.Some? {
      PartsValue(Template.Parse(entry.format.value).segs, alias, mode, row);
    }
  }

  /** Bytes the column references contribute. */
  function ColumnBytes(segs: seq<Segment>, row: Row, mode: Mode): nat {
    if segs == [] then 0
    else ColumnBytes(segs[..|segs| - 1], row, mode) +
         (if segs[|segs| - 1].Column? then Bytes(TextOf(segs[|segs| - 1], row, mode)) else 0)
  }

  lemma {:induction false} DocumentBytes(segs: seq<Segment>, row: Row, mode: Mode)
    ensures Bytes(Document(segs, row, mode)) == LiteralBytes(segs) + ColumnBytes(segs, row, mode)
  {
    hide Bytes;
    if segs == [] {
      NoBytes();
    } else {
      DocumentBytes(segs[..|segs| - 1], row, mode);
      BytesConcat(Document(segs[..|segs| - 1], row, mode), TextOf(segs[|segs| - 1], row, mode));
    }
  }

  lemma NoBytes()
    ensures Bytes("") == 0
  {
  }

  lemma SumSnoc(first: Expr, terms: seq<Expr>, t: Expr)
    ensures Sum(first, terms + [t]) == Add(Sum(first, terms), t)
  {
    assert (terms + [t])[..|terms|] == terms;
  }

  lemma TermValue(c: string, alias: string, mode: Mode, row: Row)
    ensures Eval(LengthOfColumn(c, alias, mode), row) == Num(Bytes(TextOf(Template.Column(c), row, mode)))
  {
    hide Bytes;
    NoBytes();
    var field := AsText(Field(alias, c));
    assert Eval(field, row) == Eval(Field(alias, c), row);
    assert Eval(OctetLength(field), row) == if c in row.columns then Num(Bytes(row.columns[c])) else Null;
    assert Eval(AsBigint(OctetLength(field)), row) == Eval(OctetLength(field), row);
    if mode.Chunks? {
      var chunk := OctetLength(ChunkText(mode.alias));
      assert Eval(chunk, row) == Num(Bytes(row.chunk));
    }
  }

  lemma {:induction false} SumValue(first: Expr, n: nat, segs: seq<Segment>, alias: string, mode: Mode, row: Row)
    requires Eval(first, row) == Num(n)
    ensures Eval(Sum(first, Terms(segs, alias, mode)), row) == Num(n + ColumnBytes(segs, row, mode))
  {
    hide Bytes, LengthOfColumn, Sum, TextOf, Eval;
    if segs == [] {
      SumNothing(first);
    } else {
      var init, last := segs[..|segs| - 1], segs[|segs| - 1];
      SumValue(first, n, init, alias, mode, row);
      if last.Column? {
        TermValue(last.name, alias, mode, row);
        SumSnoc(first, Terms(init, alias, mode), LengthOfColumn(last.name, alias, mode));
        AddValue(Sum(first, Terms(init, alias, mode)), LengthOfColumn(last.name, alias, mode), row);
      } else {
        assert Terms(init, alias, mode) + [] == Terms(init, alias, mode);
      }
    }
  }

  lemma AddValue(left: Expr, right: Expr, row: Row)
    ensures Eval(Add(left, right), row) == Added(Eval(left, row), Eval(right, row))
  {
  }

  lemma SumNothing(first: Expr)
    ensures Sum(first, []) == first
  {
  }

  /** Measuring without rendering: on every row and every pattern of NULLs the length expression is
      the byte length of the rendered value, and NULL exactly when it is. */
  lemma LengthMatches(entry: Entry, alias: string, mode: Mode, row: Row)
    requires Valid(entry)
    ensures Eval(LengthTree(entry, alias, mode), row) == Measured(Eval(RenderTree(entry, alias, mode), row))
  {
    hide Template.Parse, PartsTree, Document, Bytes, Sum, Terms, LiteralBytes, ColumnBytes;
    match entry.format {
      case None => RawLength(entry, alias, mode, row);
      case Some(template) =>
        var segs := Template.Parse(template).segs;
        PartsValue(segs, alias, mode, row);
        DocumentBytes(segs, row, mode);
        CountValue(LiteralBytes(segs), row);
        SumValue(AsBigint(Int(LiteralBytes(segs))), LiteralBytes(segs), segs, alias, mode, row);
    }
  }

  lemma CountValue(n: nat, row: Row)
    ensures Eval(AsBigint(Int(n)), row) == Num(n)
  {
  }

  lemma RawLength(entry: Entry, alias: string, mode: Mode, row: Row)
    requires entry.format.None?
    ensures Eval(LengthTree(entry, alias, mode), row) == Measured(Eval(RenderTree(entry, alias, mode), row))
  {
    hide Bytes;
    var raw := RenderTree(entry, alias, mode);
    assert Eval(AsBigint(OctetLength(raw)), row) == Eval(OctetLength(raw), row);
  }

  // ---- the emitted text itself ----

  predicate Spoken(segs: seq<Segment>) {
    forall i :: 0 <= i < |segs| && segs[i].Literal? ==> segs[i].text != ""
  }

  lemma ParsedSpoken(template: string)
    requires Template.Parse(template).Ok?
    ensures Spoken(Template.Parse(template).segs)
  {
    TemplateImage.ParsedIsCanonical(template);
  }

  lemma FieldsGrouped(alias: string, name: string)
    ensures IsPrimary(Field(alias, name)) && IsCast(AsText(Field(alias, name))) && Grouped(AsText(Field(alias, name)))
    ensures Grouped(Field(alias, name)) && IsPrimary(Empty) && Grouped(Empty) && Grouped(Int(0))
  {
    assert IsCast(Field(alias, name)) && IsCast(Empty) && IsCast(Int(0));
    assert IsSum(Field(alias, name)) && IsSum(AsText(Field(alias, name))) && IsSum(Empty) && IsSum(Int(0));
  }

  lemma PartGrouped(seg: Segment, alias: string, mode: Mode)
    requires seg.Literal? ==> seg.text != ""
    ensures IsSum(PartTree(seg, alias, mode)) && Grouped(PartTree(seg, alias, mode))
  {
    var x := PartTree(seg, alias, mode);
    if seg.Column? { FieldsGrouped(alias, seg.name); }
    assert IsPrimary(x);
    assert IsCast(x);
  }

  lemma {:induction false} PartsGrouped(segs: seq<Segment>, alias: string, mode: Mode)
    requires Spoken(segs)
    ensures Grouped(PartsTree(segs, alias, mode))
  {
    hide PartTree, IsSum;
    if segs == [] {
      FieldsGrouped("", "");
    } else {
      PartGrouped(segs[|segs| - 1], alias, mode);
      PartsGrouped(segs[..|segs| - 1], alias, mode);
    }
  }

  lemma TermGrouped(c: string, alias: string, mode: Mode)
    ensures IsCast(LengthOfColumn(c, alias, mode))
  {
    hide IsSum;
    FieldsGrouped(alias, c);
    if mode.Chunks? && c == "chunk" {
      ChunkGrouped(mode.alias);
    } else {
      var length := OctetLength(AsText(Field(alias, c)));
      assert IsPrimary(length);
      CastGrouped(length);
    }
  }

  lemma CastGrouped(x: Expr)
    requires IsPrimary(x)
    ensures IsCast(AsBigint(x)) && IsSum(AsBigint(x)) && Grouped(AsBigint(x))
  {
    assert IsCast(x);
  }

  lemma ChunkGrouped(alias: string)
    ensures Grouped(ChunkText(alias)) && IsPrimary(OctetLength(ChunkText(alias))) && IsCast(AsBigint(OctetLength(ChunkText(alias))))
  {
    assert IsCast(ChunkText(alias)) && IsSum(ChunkText(alias));
    CastGrouped(OctetLength(ChunkText(alias)));
  }

  lemma {:induction false} TermsGrouped(segs: seq<Segment>, alias: string, mode: Mode)
    ensures forall i :: 0 <= i < |Terms(segs, alias, mode)| ==> IsCast(Terms(segs, alias, mode)[i])
  {
    hide LengthOfColumn, IsCast;
    if segs != [] {
      TermsGrouped(segs[..|segs| - 1], alias, mode);
      var last := segs[|segs| - 1];
      if last.Column? { TermGrouped(last.name, alias, mode); }
    }
  }

  lemma {:induction false} SumGrouped(first: Expr, terms: seq<Expr>)
    requires IsSum(first) && forall i :: 0 <= i < |terms| ==> IsCast(terms[i])
    ensures IsSum(Sum(first, terms))
  {
    hide IsCast;
    if terms != [] { SumGrouped(first, terms[..|terms| - 1]); }
  }

  lemma AnchorGrouped(alias: string, source: string, e: Expr)
    requires Grouped(e)
    ensures Grouped(WhenPresent(Field(alias, source), e))
  {
    FieldsGrouped(alias, source);
    var x := WhenPresent(Field(alias, source), e);
    assert IsPrimary(x);
    assert IsCast(x) && IsSum(x);
  }

  /** Both expressions group as they are written. */
  lemma TreesGrouped(entry: Entry, alias: string, mode: Mode)
    requires Valid(entry)
    ensures Grouped(RenderTree(entry, alias, mode)) && Grouped(LengthTree(entry, alias, mode))
  {
    hide Template.Parse, Spoken, PartsTree, Terms, Sum, LiteralBytes, IsPrimary, IsCast;
    if entry.format.None? {
      RawGrouped(entry, alias, mode);
    } else {
      var segs := Template.Parse(entry.format.value).segs;
      ParsedSpoken(entry.format.value);
      PartsGrouped(segs, alias, mode);
      AnchorGrouped(alias, entry.source, PartsTree(segs, alias, mode));
      TermsGrouped(segs, alias, mode);
      var count, terms := AsBigint(Int(LiteralBytes(segs))), Terms(segs, alias, mode);
      CountGrouped(LiteralBytes(segs));
      SumGrouped(count, terms);
      SumIsGrouped(Sum(count, terms));
      AnchorGrouped(alias, entry.source, Sum(count, terms));
    }
  }

  lemma CountGrouped(n: nat)
    ensures IsSum(AsBigint(Int(n)))
  {
    CastGrouped(Int(n));
  }

  lemma SumIsGrouped(x: Expr)
    requires IsSum(x)
    ensures Grouped(x)
  {
    assert x.Concat? ==> !IsPrimary(x);
    assert x.Concat? ==> !IsCast(x);
  }

  lemma RawGrouped(entry: Entry, alias: string, mode: Mode)
    requires entry.format.None?
    ensures Grouped(RenderTree(entry, alias, mode)) && Grouped(LengthTree(entry, alias, mode))
  {
    FieldsGrouped(alias, entry.source);
    match mode {
      case Columns =>
        var length := OctetLength(AsText(Field(alias, entry.source)));
        assert IsPrimary(length);
        CastGrouped(length);
      case Chunks(c) =>
        ChunkGrouped(c);
        CastGrouped(OctetLength(ChunkText(c)));
    }
  }

  /** The SQL text the two modes render. */
  function RenderText(entry: Entry, alias: string, mode: Mode): Rendered {
    match mode
    case Columns => FormatExpr(entry, alias)
    case Chunks(chunkAlias) => ChunkFormatExpr(entry, alias, chunkAlias)
  }

  lemma RenderTextShows(entry: Entry, alias: string, mode: Mode)
    requires Valid(entry)
    ensures RenderText(entry, alias, mode) == Sql(Show(RenderTree(entry, alias, mode)))
  {
    hide Show, RenderTree, FormatExpr, ChunkFormatExpr;
    match mode {
      case Columns => RendersTree(entry, alias, "");
      case Chunks(chunkAlias) => RendersTree(entry, alias, chunkAlias);
    }
  }

  /** Read back by PostgreSQL's rules, the emitted text is the intended expression: the render text of
      either mode, and the length text, which the two loops build as the text of the length tree. */
  lemma EmittedMeans(entry: Entry, alias: string, mode: Mode, conforming: bool)
    requires Valid(entry) && entry.source != "" && CleanMode(alias, mode)
    ensures RenderText(entry, alias, mode).Sql?
    ensures ReadSql(RenderText(entry, alias, mode).text, conforming) == Means(RenderTree(entry, alias, mode))
    ensures ReadSql(Show(LengthTree(entry, alias, mode)), conforming) == Means(LengthTree(entry, alias, mode))
  {
    hide Show, Clean, RenderTree, LengthTree, ReadSql, Grouped, RenderText;
    RenderTextShows(entry, alias, mode);
    TreesClean(entry, alias, mode);
    TreesGrouped(entry, alias, mode);
    ShowMeans(RenderTree(entry, alias, mode), conforming);
    ShowMeans(LengthTree(entry, alias, mode), conforming);
  }

  /** So the text itself has the value: on every row, under either setting, what the render text
      evaluates to is the document, and what the length text evaluates to is its length in bytes,
      NULL together exactly when a template's source column is NULL. */
  lemma EmittedValue(entry: Entry, alias: string, mode: Mode, conforming: bool, row: Row)
    requires Valid(entry) && entry.source != "" && CleanMode(alias, mode)
    ensures RenderText(entry, alias, mode).Sql?
    ensures var text := ReadSql(RenderText(entry, alias, mode).text, conforming);
            var measure := ReadSql(Show(LengthTree(entry, alias, mode)), conforming);
            && text.Means? && Eval(text.x, row) == Expected(entry, row, mode)
            && measure.Means? && Eval(measure.x, row) == Measured(Expected(entry, row, mode))
  {
    hide Show, RenderTree, LengthTree, ReadSql, Eval, Expected, RenderText, Measured;
    EmittedMeans(entry, alias, mode, conforming);
    RenderValue(entry, alias, mode, row);
    LengthMatches(entry, alias, mode, row);
  }
}

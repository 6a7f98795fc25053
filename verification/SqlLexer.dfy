/** The lexical rules of PostgreSQL for the SQL fragment the renderers emit (sections 4.1.1 and
    4.1.2 of the PostgreSQL manual), and the quoting that writes it. */
module SqlLexer {

  datatype Token = Word(word: string) | Name(name: string) | Number(value: nat) | Str(text: string) | Mark(mark: string)

  datatype Lexed = Tokens(tokens: seq<Token>) | Refused

  // ---- delimited text ----

  /** The decoded text and the characters it spans, its closing delimiter included. */
  datatype Reading = Unterminated | Done(text: string, length: nat)

  function More(text: string, n: nat, r: Reading): Reading {
    match r
    case Unterminated => Unterminated
    case Done(rest, k) => Done(text + rest, n + k)
  }

  /** Numeric escapes, which are never emitted and are not decoded here. */
  predicate Numeric(c: char) { '0' <= c <= '7' || c == 'x' || c == 'u' || c == 'U' }

  /** What a backslash and `c` stand for. */
  function Control(c: char): char {
    match c
    case 'b' => '\U{0008}'
    case 'f' => '\U{000C}'
    case 'n' => '\n'
    case 'r' => '\r'
    case 't' => '\t'
    case _ => c
  }

  /** Reads up to the closing delimiter; a doubled delimiter stands for one, and so does an escaped
      character where backslashes escape. */
  function Read(s: string, q: char, escapes: bool): (r: Reading)
    ensures r.Done? ==> 1 <= r.length <= |s|
  {
    if s == [] then Unterminated
    else if s[0] == q then
      if |s| > 1 && s[1] == q then More([q], 2, Read(s[2..], q, escapes)) else Done("", 1)
    else if escapes && s[0] == '\\' then
      if |s| == 1 || Numeric(s[1]) then Unterminated else More([Control(s[1])], 2, Read(s[2..], q, escapes))
    else More([s[0]], 1, Read(s[1..], q, escapes))
  }

  function QuoteChar(c: char, q: char, escapes: bool): string {
    if escapes && (c == '\\' || c == q) then ['\\', c] else if c == q then [q, q] else [c]
  }

  function Quote(s: string, q: char, escapes: bool): string {
    if s == [] then [] else QuoteChar(s[0], q, escapes) + Quote(s[1..], q, escapes)
  }

  /** A quoted identifier. */
  function QuoteIdent(s: string): string { "\"" + Quote(s, '"', false) + "\"" }

  /** The apostrophe-only literal. */
  function QuoteLiteral(s: string): string { "'" + Quote(s, '\'', false) + "'" }

  /** The setting-independent literal. */
  function Estring(s: string): string { "E'" + Quote(s, '\'', true) + "'" }

  lemma QuoteSnoc(s: string, c: char, q: char, escapes: bool)
    ensures Quote(s + [c], q, escapes) == Quote(s, q, escapes) + QuoteChar(c, q, escapes)
  {
    if s == [] {
      assert [c][1..] == [] && [] + [c] == [c];
    } else {
      assert (s + [c])[1..] == s[1..] + [c];
      QuoteSnoc(s[1..], c, q, escapes);
    }
  }

  /** The literal is built one character at a time. */
  method QuoteLiteralEstring(s: string) returns (out: string)
    ensures out == Estring(s)
  {
    out := "E'";
    for i := 0 to |s|
      invariant out == "E'" + Quote(s[..i], '\'', true)
    {
      assert s[..i + 1] == s[..i] + [s[i]];
      QuoteSnoc(s[..i], s[i], '\'', true);
      if s[i] == '\\' {
        out := out + "\\\\";
      } else if s[i] == '\'' {
        out := out + "\\'";
      } else {
        out := out + [s[i]];
      }
    }
    assert s[..|s|] == s;
    out := out + "'";
  }

  predicate Delimiter(q: char) { q == '"' || q == '\'' }

  predicate Ends(s: string, q: char) { s == [] || s[0] != q }

  lemma ReadStep(s: string, q: char, escapes: bool)
    requires Delimiter(q)
    ensures s == [] ==> Read(s, q, escapes) == Unterminated
    ensures s != [] && s[0] == q && Ends(s[1..], q) ==> Read(s, q, escapes) == Done("", 1)
    ensures |s| > 1 && s[0] == q && s[1] == q ==> Read(s, q, escapes) == More([q], 2, Read(s[2..], q, escapes))
    ensures |s| > 1 && escapes && s[0] == '\\' && !Numeric(s[1]) ==>
              Read(s, q, escapes) == More([Control(s[1])], 2, Read(s[2..], q, escapes))
    ensures |s| > 1 && escapes && s[0] == '\\' && Numeric(s[1]) ==> Read(s, q, escapes) == Unterminated
    ensures s != [] && s[0] != q && !(escapes && s[0] == '\\') ==>
              Read(s, q, escapes) == More([s[0]], 1, Read(s[1..], q, escapes))
  {
  }

  /** One quoted character reads back as the character, whatever follows. */
  lemma QuoteCharReads(c: char, q: char, escapes: bool, rest: string)
    requires Delimiter(q)
    ensures Read(QuoteChar(c, q, escapes) + rest, q, escapes) ==
            More([c], |QuoteChar(c, q, escapes)|, Read(rest, q, escapes))
  {
    hide Read;
    var s := QuoteChar(c, q, escapes) + rest;
    assert s[|QuoteChar(c, q, escapes)|..] == rest;
    ReadStep(s, q, escapes);
  }

  /** Quoted text and its closing delimiter read back as the text, whatever follows but a delimiter. */
  lemma {:induction false} QuoteReadsBack(s: string, q: char, escapes: bool, rest: string)
    requires Delimiter(q) && Ends(rest, q)
    ensures Read(Quote(s, q, escapes) + [q] + rest, q, escapes) == Done(s, |Quote(s, q, escapes)| + 1)
  {
    hide Read, QuoteChar;
    var all := Quote(s, q, escapes) + [q] + rest;
    if s == [] {
      assert all == [q] + rest && all[1..] == rest;
      ReadStep(all, q, escapes);
    } else {
      QuoteReadsBack(s[1..], q, escapes, rest);
      var tail := Quote(s[1..], q, escapes) + [q] + rest;
      assert all == QuoteChar(s[0], q, escapes) + tail;
      QuoteCharReads(s[0], q, escapes, tail);
      assert [s[0]] + s[1..] == s;
    }
  }

  // ---- the apostrophe-only literal where backslashes escape ----

  /** `b` after `k` more backslashes. */
  function Led(k: nat, b: string): string { if k == 0 then b else ['\\'] + Led(k - 1, b) }

  lemma {:induction false} LedByTwo(k: nat, b: string)
    requires ['\\', '\\'] <= b
    ensures Led(k, b) == ['\\'] + Led(k + 1, b[2..])
  {
    if k == 0 {
      assert b == ['\\'] + (['\\'] + b[2..]);
    } else {
      LedByTwo(k - 1, b);
    }
  }

  lemma PlainHead(b: string)
    ensures b == [] ==> Quote(b, '\'', false) == []
    ensures b != [] ==> Quote(b, '\'', false) == (if b[0] == '\'' then "''" else [b[0]]) + Quote(b[1..], '\'', false)
  {
  }

  /** An apostrophe-only literal, read where backslashes escape. */
  function Misread(b: string): Reading { Read(Quote(b, '\'', false) + "'", '\'', true) }

  /** A reading starts with a backslash only where two were written. */
  lemma NoLeadingBackslash(b: string)
    requires !(['\\', '\\'] <= b)
    ensures Misread(b).Done? && Misread(b).text != [] ==> Misread(b).text[0] != '\\'
  {
    hide Read, Quote;
    var s := Quote(b, '\'', false) + "'";
    PlainHead(b);
    ReadStep(s, '\'', true);
    if b == [] {
      assert s == "'" && s[1..] == "";
    } else if b[0] == '\\' {
      PlainHead(b[1..]);
      assert s[1..] == Quote(b[1..], '\'', false) + "'" && s[1] == s[1..][0];
    }
  }

  lemma MisreadTwo(b: string)
    requires ['\\', '\\'] <= b
    ensures Misread(b) == More(['\\'], 2, Misread(b[2..]))
  {
    hide Read, Quote;
    var s, t := Quote(b, '\'', false) + "'", Quote(b[2..], '\'', false) + "'";
    PlainHead(b);
    PlainHead(b[1..]);
    assert b[1..][1..] == b[2..];
    assert s == ['\\', '\\'] + t && s[2..] == t;
    ReadStep(s, '\'', true);
  }

  lemma MisreadOne(b: string)
    requires b != [] && b[0] != '\\'
    ensures Misread(b) == More([b[0]], if b[0] == '\'' then 2 else 1, Misread(b[1..]))
  {
    hide Read, Quote;
    var s, t := Quote(b, '\'', false) + "'", Quote(b[1..], '\'', false) + "'";
    PlainHead(b);
    if b[0] == '\'' {
      assert s == "''" + t && s[2..] == t;
    } else {
      assert s == [b[0]] + t && s[1..] == t;
    }
    ReadStep(s, '\'', true);
  }

  /** Text with a backslash does not read back there. */
  lemma {:induction false} PlainBreaks(b: string, k: nat)
    requires k > 0 || '\\' in b
    ensures Misread(b).Done? ==> Misread(b).text != Led(k, b)
    decreases |b|
  {
    hide Misread, Led;
    if ['\\', '\\'] <= b {
      MisreadTwo(b);
      PlainBreaks(b[2..], k + 1);
      LedByTwo(k, b);
      SameTail(Misread(b[2..]), '\\', Led(k + 1, b[2..]));
    } else {
      LedStarts(k, b);
      if k > 0 || b[0] == '\\' {
        NoLeadingBackslash(b);
      } else {
        MisreadOne(b);
        PlainBreaks(b[1..], 0);
        LedStarts(k, b[1..]);
        SameTail(Misread(b[1..]), b[0], b[1..]);
        assert [b[0]] + b[1..] == b;
      }
    }
  }

  lemma LedStarts(k: nat, b: string)
    ensures k > 0 ==> Led(k, b) != [] && Led(k, b)[0] == '\\'
    ensures k == 0 ==> Led(k, b) == b
  {
  }

  lemma SameTail(next: Reading, c: char, t: string)
    requires next.Done? ==> next.text != t
    ensures next.Done? ==> [c] + next.text != [c] + t
  {
    if next.Done? {
      assert ([c] + next.text)[1..] == next.text && ([c] + t)[1..] == t;
    }
  }

  lemma {:induction false} PlainReadsEscaped(s: string)
    requires '\\' !in s
    ensures Misread(s) == Done(s, |Quote(s, '\'', false)| + 1)
  {
    hide Read;
    if s == [] {
      assert Quote(s, '\'', false) + "'" == "'";
      ReadStep("'", '\'', true);
    } else {
      PlainReadsEscaped(s[1..]);
      MisreadOne(s);
      assert [s[0]] + s[1..] == s;
    }
  }

  // ---- the lexer ----

  predicate Digit(c: char) { '0' <= c <= '9' }

  predicate WordStart(c: char) { 'a' <= c <= 'z' || 'A' <= c <= 'Z' || c == '_' || c >= '\U{0080}' }

  predicate WordChar(c: char) { WordStart(c) || Digit(c) || c == '$' }

  predicate OperatorChar(c: char) { c in "+-*/<>=~!@#%^&|`?" }

  function DigitRun(s: string): (n: nat)
    ensures n <= |s|
  {
    if s == [] || !Digit(s[0]) then 0 else 1 + DigitRun(s[1..])
  }

  function WordRun(s: string): (n: nat)
    ensures n <= |s|
  {
    if s == [] || !WordChar(s[0]) then 0 else 1 + WordRun(s[1..])
  }

  function ValueOf(digits: string): nat {
    if digits == [] || !Digit(digits[|digits| - 1]) then 0
    else 10 * ValueOf(digits[..|digits| - 1]) + (digits[|digits| - 1] as int - '0' as int)
  }

  /** Length of the operator or punctuation mark `s` starts with. */
  function MarkLength(s: string): (n: nat)
    ensures n <= |s|
  {
    if "||" <= s then (if |s| > 2 && OperatorChar(s[2]) then 0 else 2)
    else if "::" <= s then 2
    else if "+" <= s then (if |s| > 1 && OperatorChar(s[1]) then 0 else 1)
    else if "." <= s then (if |s| > 1 && Digit(s[1]) then 0 else 1)
    else if "," <= s || "(" <= s || ")" <= s then 1
    else 0
  }

  function Prepend(t: Token, r: Lexed): Lexed {
    match r
    case Refused => Refused
    case Tokens(ts) => Tokens([t] + ts)
  }

  /** The tokens of a piece of SQL. `conforming` is the setting that decides whether backslashes
      escape in an ordinary literal; text outside the fragment is refused. */
  function LexSql(s: string, conforming: bool): Lexed
    decreases |s|
  {
    if s == [] then Tokens([])
    else if s[0] == ' ' then LexSql(s[1..], conforming)
    else if s[0] == '"' then
      match Read(s[1..], '"', false)
      case Unterminated => Refused
      case Done(text, n) => if text == [] then Refused else Prepend(Name(text), LexSql(s[1 + n..], conforming))
    else if s[0] == '\'' then
      match Read(s[1..], '\'', !conforming)
      case Unterminated => Refused
      case Done(text, n) => Prepend(Str(text), LexSql(s[1 + n..], conforming))
    else if |s| > 1 && (s[0] == 'E' || s[0] == 'e') && s[1] == '\'' then
      match Read(s[2..], '\'', true)
      case Unterminated => Refused
      case Done(text, n) => Prepend(Str(text), LexSql(s[2 + n..], conforming))
    else if Digit(s[0]) then
      var n := 1 + DigitRun(s[1..]);
      if n < |s| && (WordStart(s[n]) || s[n] == '.') then Refused
      else Prepend(Number(ValueOf(s[..n])), LexSql(s[n..], conforming))
    else if WordStart(s[0]) then
      var n := 1 + WordRun(s[1..]);
      if n < |s| && s[n] == '\'' then Refused else Prepend(Word(s[..n]), LexSql(s[n..], conforming))
    else
      var n := MarkLength(s);
      if n == 0 then Refused else Prepend(Mark(s[..n]), LexSql(s[n..], conforming))
  }

  /** An apostrophe-only literal means its text under both settings exactly when it has no backslash. */
  lemma PlainLiteralIff(s: string)
    ensures LexSql(QuoteLiteral(s), true) == Tokens([Str(s)])
    ensures LexSql(QuoteLiteral(s), false) == Tokens([Str(s)]) <==> '\\' !in s
  {
    hide Read, Quote;
    var all := QuoteLiteral(s);
    assert all[1..] == Quote(s, '\'', false) + "'";
    assert all[1..] == Quote(s, '\'', false) + ['\''] + "";
    QuoteReadsBack(s, '\'', false, "");
    var n := |Quote(s, '\'', false)| + 1;
    assert all[1 + n..] == "";
    if '\\' in s {
      PlainBreaks(s, 0);
      if LexSql(all, false) == Tokens([Str(s)]) { LiteralReading(all, s); }
    } else {
      PlainReadsEscaped(s);
    }
  }

  lemma LiteralReading(all: string, t: string)
    requires all != [] && all[0] == '\'' && LexSql(all, false) == Tokens([Str(t)])
    ensures var r := Read(all[1..], '\'', true); r.Done? && r.text == t
  {
    hide Read, DigitRun, WordRun, ValueOf, MarkLength;
    var r := Read(all[1..], '\'', true);
    assert r.Done?;
    assert LexSql(all, false) == Prepend(Str(r.text), LexSql(all[1 + r.length..], false));
    assert LexSql(all, false).tokens[0] == Str(r.text);
  }
}

/** A printer that inverts the parser, and the exact image of the parser. */
module TemplateRoundTrip {
  import opened Text
  import opened Template

  // ---- braced names ----

  /** The text between the braces of `${...}` that spells a name. */
  function Escape(name: string): string {
    if name == [] then []
    else if name[0] == '}' then "}}" + Escape(name[1..])
    else [name[0]] + Escape(name[1..])
  }

  predicate Unbraced(s: string) { s == [] || s[0] != '}' }

  /** An escaped name and a closing brace read back as the name, whatever follows but a brace. */
  lemma {:induction false} EscapeReadsBack(name: string, rest: string)
    requires Unbraced(rest)
    ensures ReadBraced(Escape(name) + "}" + rest) == Closed(name, |Escape(name)| + 1)
  {
    hide ReadBraced, Escape;
    var s := Escape(name) + "}" + rest;
    if name == [] {
      EscapeStep(name);
      assert s == "}" + rest && s[1..] == rest;
      ReadStep(s);
    } else {
      EscapeReadsBack(name[1..], rest);
      var tail := Escape(name[1..]) + "}" + rest;
      EscapeStep(name);
      assert s == Escape([name[0]]) + tail;
      assert s[|Escape([name[0]])|..] == tail;
      assert [name[0]] + name[1..] == name;
      ReadStep(s);
    }
  }

  /** What a closed reference spans is its escaped name and one brace, and no brace follows. */
  lemma {:induction false} ClosedSpansEscape(s: string)
    requires ReadBraced(s).Closed?
    ensures var b := ReadBraced(s); s[..b.length] == Escape(b.name) + "}" && Unbraced(s[b.length..])
  {
    hide ReadBraced, Escape;
    ReadStep(s);
    EscapeStep(s);
    EscapeStep("}");
    if s[0] != '}' {
      assert s[..1] == [s[0]];
      ClosedSpansEscape(s[1..]);
      SpanGrows([s[0]], s[1..], ReadBraced(s[1..]));
      assert s == [s[0]] + s[1..];
    } else if |s| > 1 && s[1] == '}' {
      ClosedSpansEscape(s[2..]);
      assert s[..2] == "}}";
      SpanGrows("}", s[2..], ReadBraced(s[2..]));
      assert s == "}}" + s[2..];
    } else {
      if |s| > 1 { assert s[1..][0] == s[1]; }
      assert s[..1] == "}";
      EscapeStep([]);
      assert [] + "}" == "}";
    }
  }

  lemma ReadStep(s: string)
    ensures s == [] ==> ReadBraced(s) == Open
    ensures s != [] && s[0] != '}' ==> ReadBraced(s) == Extend([s[0]], 1, ReadBraced(s[1..]))
    ensures |s| > 1 && s[0] == '}' && s[1] == '}' ==> ReadBraced(s) == Extend("}", 2, ReadBraced(s[2..]))
    ensures s != [] && s[0] == '}' && Unbraced(s[1..]) ==> ReadBraced(s) == Closed("", 1)
  {
  }

  lemma EscapeStep(name: string)
    ensures Escape([]) == []
    ensures name != [] ==> Escape(name) == Escape([name[0]]) + Escape(name[1..])
    ensures name != [] ==> Escape([name[0]]) == if name[0] == '}' then "}}" else [name[0]]
  {
    if name != [] { EscapeOne(name[0]); }
  }

  lemma EscapeOne(c: char)
    ensures Escape([c]) == if c == '}' then "}}" else [c]
  {
    assert [c][1..] == [] && Escape([]) == [];
  }

  /** One more character in front of a closed reference. */
  lemma SpanGrows(first: string, rest: string, t: Braced)
    requires |first| == 1 && t.Closed? && t.length <= |rest|
    requires rest[..t.length] == Escape(t.name) + "}" && Unbraced(rest[t.length..])
    ensures var s, b := Escape(first) + rest, Extend(first, |Escape(first)|, t);
            b.length <= |s| && s[..b.length] == Escape(b.name) + "}" && Unbraced(s[b.length..])
  {
    hide Escape, Unbraced;
    EscapeStep(first + t.name);
    assert (first + t.name)[1..] == t.name && [(first + t.name)[0]] == first;
    Slices(Escape(first), rest, t.length);
    assert Escape(first) + (Escape(t.name) + "}") == Escape(first) + Escape(t.name) + "}";
  }

  lemma Slices(a: string, b: string, k: nat)
    requires k <= |b|
    ensures (a + b)[..|a| + k] == a + b[..k] && (a + b)[|a| + k..] == b[k..]
  {
  }

  lemma {:induction false} EscapeStaysOpen(name: string)
    ensures ReadBraced(Escape(name)) == Open
  {
    if name != [] {
      EscapeStaysOpen(name[1..]);
      var s := Escape(name);
      if name[0] == '}' { assert s[2..] == Escape(name[1..]); } else { assert s[1..] == Escape(name[1..]); }
    }
  }

  lemma {:induction false} OpenIsEscape(s: string) returns (name: string)
    requires ReadBraced(s) == Open
    ensures s == Escape(name)
  {
    if s == [] {
      name := [];
    } else if s[0] != '}' {
      var rest := OpenIsEscape(s[1..]);
      name := [s[0]] + rest;
      assert name[1..] == rest;
    } else {
      var rest := OpenIsEscape(s[2..]);
      name := "}" + rest;
      assert name[1..] == rest && s == "}}" + s[2..];
    }
  }

  ghost predicate Escaped(s: string) { exists name :: s == Escape(name) }

  /** A reference is unclosed exactly when what follows the brace is some escaped name. */
  lemma UnclosedIffEscape(s: string)
    ensures ReadBraced(s) == Open <==> Escaped(s)
  {
    if ReadBraced(s) == Open {
      var name := OpenIsEscape(s);
    }
    if Escaped(s) {
      var name :| s == Escape(name);
      EscapeStaysOpen(name);
    }
  }

  // ---- tokens ----

  /** The bare form `$name` reads back: nothing after it would be taken into the name. */
  predicate Bare(name: string, rest: seq<Token>) {
    Simple(name) && !(rest != [] && rest[0].Ch? && IdentChar(rest[0].c))
  }

  function Spell(t: Token, rest: seq<Token>): string {
    match t
    case Ch(c) => if c == '$' then "$$" else [c]
    case Ref(name) => if Bare(name, rest) then "$" + name else "${" + Escape(name) + "}"
  }

  function PrintTokens(ts: seq<Token>): string {
    if ts == [] then [] else Spell(ts[0], ts[1..]) + PrintTokens(ts[1..])
  }

  predicate Fits(ts: seq<Token>, i: nat)
    requires i < |ts|
  {
    ts[i].Ref? ==> ts[i].name != [] && (i + 1 < |ts| && ts[i + 1] == Ch('}') ==> Simple(ts[i].name))
  }

  /** Every name is non-empty, and one that needs braces is not followed by a brace. */
  predicate Printable(ts: seq<Token>) {
    forall i {:trigger Fits(ts, i)} :: 0 <= i < |ts| ==> Fits(ts, i)
  }

  lemma PrintableTail(ts: seq<Token>)
    requires ts != []
    ensures Printable(ts) <==> Fits(ts, 0) && Printable(ts[1..])
  {
    forall i | 0 <= i < |ts[1..]| ensures Fits(ts[1..], i) == Fits(ts, i + 1) {
      assert ts[1..][i] == ts[i + 1];
      if i + 1 < |ts[1..]| { assert ts[1..][i + 1] == ts[i + 2]; }
    }
    if Fits(ts, 0) && Printable(ts[1..]) {
      forall i | 0 <= i < |ts| ensures Fits(ts, i) {
        if i > 0 { assert Fits(ts[1..], i - 1) == Fits(ts, i - 1 + 1); }
      }
    }
  }

  /** What a printed token sequence starts with. */
  lemma PrintStarts(ts: seq<Token>)
    ensures ts == [] ==> PrintTokens(ts) == []
    ensures ts != [] ==> PrintTokens(ts) != [] && PrintTokens(ts)[0] == (if ts[0].Ch? then ts[0].c else '$')
  {
  }

  lemma {:induction false} RunStops(name: string, rest: string)
    requires forall i :: 0 <= i < |name| ==> IdentChar(name[i])
    requires rest == [] || !IdentChar(rest[0])
    ensures IdentRun(name + rest) == |name|
  {
    if name == [] {
      assert name + rest == rest;
    } else {
      RunStops(name[1..], rest);
      assert (name + rest)[1..] == name[1..] + rest;
    }
  }

  lemma BareReads(name: string, rest: string)
    requires Simple(name) && (rest == [] || !IdentChar(rest[0]))
    ensures Lex("$" + name + rest) == Resume([Ref(name)], 1 + |name|, Lex(rest))
  {
    hide Lex, FirstOf;
    var s := "$" + name + rest;
    FirstIsBare(name, rest);
    LexFirst(s);
    assert s[1 + |name|..] == rest;
  }

  lemma FirstIsBare(name: string, rest: string)
    requires Simple(name) && (rest == [] || !IdentChar(rest[0]))
    ensures FirstOf("$" + name + rest) == Read(Ref(name), 1 + |name|, 1 + |name|)
  {
    hide IdentRun, ReadBraced, Bytes;
    var s := "$" + name + rest;
    RunStops(name, rest);
    assert s[1..] == name + rest && s[1] == name[0];
    assert s[1..1 + |name|] == name;
  }

  lemma QuotedReads(name: string, rest: string)
    requires name != [] && Unbraced(rest)
    ensures Lex("${" + Escape(name) + "}" + rest) == Resume([Ref(name)], 3 + Bytes(Escape(name)), Lex(rest))
  {
    hide Lex, FirstOf, Escape, Bytes;
    var s, n := "${" + Escape(name) + "}" + rest, |Escape(name)| + 1;
    FirstIsQuoted(name, rest);
    LexFirst(s);
    assert s[2 + n..] == rest;
  }

  lemma FirstIsQuoted(name: string, rest: string)
    requires name != [] && Unbraced(rest)
    ensures FirstOf("${" + Escape(name) + "}" + rest) == Read(Ref(name), 3 + |Escape(name)|, 3 + Bytes(Escape(name)))
  {
    hide IdentRun, ReadBraced, Escape, Bytes;
    var s := "${" + Escape(name) + "}" + rest;
    EscapeReadsBack(name, rest);
    var n := |Escape(name)| + 1;
    assert s[2..] == Escape(name) + "}" + rest;
    assert s[2..2 + n] == Escape(name) + "}";
    assert Bytes(Escape(name) + "}") == Bytes(Escape(name)) + 1 by { BytesConcat(Escape(name), "}"); BraceByte(); }
  }

  lemma BraceByte()
    ensures Bytes("}") == 1
  {
    assert "}"[1..] == "";
  }

  lemma CharacterReads(c: char, rest: string)
    ensures Lex(Spell(Ch(c), []) + rest) == Resume([Ch(c)], Bytes(Spell(Ch(c), [])), Lex(rest))
  {
    hide IdentRun, ReadBraced;
    if c == '$' {
      assert ("$$" + rest)[2..] == rest;
      assert "$$"[1..] == "$" && "$"[1..] == "";
    } else {
      assert ([c] + rest)[1..] == rest;
      assert [c][1..] == "";
    }
  }

  /** Printed tokens read back as themselves. */
  lemma {:induction false} PrintReadsBack(ts: seq<Token>)
    requires Printable(ts)
    ensures Lex(PrintTokens(ts)) == Tokens(ts)
  {
    hide Lex, Escape, IdentRun;
    if ts == [] {
      EmptyReads();
    } else {
      var rest := ts[1..];
      PrintableTail(ts);
      PrintReadsBack(rest);
      PrintStarts(rest);
      assert [ts[0]] + rest == ts;
      match ts[0] {
        case Ch(c) =>
          CharacterReads(c, PrintTokens(rest));
          assert Spell(ts[0], rest) == Spell(Ch(c), []);
        case Ref(name) =>
          if Bare(name, rest) {
            BareReads(name, PrintTokens(rest));
          } else {
            assert Unbraced(PrintTokens(rest));
            QuotedReads(name, PrintTokens(rest));
          }
      }
    }
  }

  lemma EmptyReads()
    ensures Lex([]) == Tokens([])
  {
  }

  // ---- readings ----

  /** How a template that reads as a token sequence starts: the characters of the first token, then
      a template that reads as the rest. */
  ghost predicate Heads(s: string, head: string, t: Token, rest: string) {
    && s == head + rest && head != []
    && match t
       case Ch(c) => head == Spell(t, [])
       case Ref(name) =>
         || (head == "$" + name && Simple(name) && (rest == [] || !IdentChar(rest[0])))
         || (head == "${" + Escape(name) + "}" && name != [] && Unbraced(rest))
  }

  /** Every template is empty, malformed at its start, or a head and a shorter template. */
  lemma FirstToken(s: string) returns (head: string, t: Token, rest: string)
    requires s != [] && !Fault(s)
    ensures Heads(s, head, t, rest)
  {
    hide Heads;
    if s[0] != '$' {
      head, t, rest := s[..1], Ch(s[0]), s[1..];
      assert Heads(s, head, t, rest) by { CharacterHeads(s); }
    } else if s[1] == '$' {
      head, t, rest := s[..2], Ch('$'), s[2..];
      assert Heads(s, head, t, rest) by { DollarHeads(s); }
    } else if IdentStart(s[1]) {
      var n := IdentRun(s[1..]);
      head, t, rest := s[..1 + n], Ref(s[1..1 + n]), s[1 + n..];
      assert Heads(s, head, t, rest) by { BareHeads(s); }
    } else {
      var b := ReadBraced(s[2..]);
      head, t, rest := s[..2 + b.length], Ref(b.name), s[2 + b.length..];
      assert Heads(s, head, t, rest) by { QuotedHeads(s); }
    }
  }

  lemma CharacterHeads(s: string)
    requires s != [] && s[0] != '$'
    ensures Heads(s, s[..1], Ch(s[0]), s[1..])
  {
  }

  lemma DollarHeads(s: string)
    requires |s| > 1 && s[0] == s[1] == '$'
    ensures Heads(s, s[..2], Ch('$'), s[2..])
  {
    assert s[..2] == "$$";
  }

  lemma BareHeads(s: string)
    requires |s| > 1 && s[0] == '$' && IdentStart(s[1])
    ensures var n := IdentRun(s[1..]); Heads(s, s[..1 + n], Ref(s[1..1 + n]), s[1 + n..])
  {
    var n := IdentRun(s[1..]);
    assert n > 0 by { assert IdentChar(s[1..][0]); }
    hide IdentRun, Escape;
    var head, name, rest := s[..1 + n], s[1..1 + n], s[1 + n..];
    assert forall i :: 0 <= i < n ==> name[i] == s[1..][i];
    assert Simple(name);
    assert head == "$" + name && s == head + rest;
    assert rest != [] ==> rest[0] == s[1..][n];
  }

  lemma QuotedHeads(s: string)
    requires |s| > 1 && s[0] == '$' && s[1] == '{' && ReadBraced(s[2..]).Closed? && ReadBraced(s[2..]).name != []
    ensures var b := ReadBraced(s[2..]); Heads(s, s[..2 + b.length], Ref(b.name), s[2 + b.length..])
  {
    var b := ReadBraced(s[2..]);
    ClosedSpansEscape(s[2..]);
    hide ReadBraced, Escape, Unbraced;
    assert s == "${" + s[2..];
    Slices("${", s[2..], b.length);
    var head, rest := s[..2 + b.length], s[2 + b.length..];
    assert head == "${" + Escape(b.name) + "}" && s == head + rest && rest == s[2..][b.length..];
  }

  /** What makes a template malformed at its very start. */
  predicate Fault(s: string) {
    s != [] && s[0] == '$' && (DanglingAt(s) || (|s| > 1 && s[1] == '{' && (ReadBraced(s[2..]) == Open || ReadBraced(s[2..]).name == [])))
  }

  predicate DanglingAt(s: string)
    requires s != [] && s[0] == '$'
  {
    |s| == 1 || !(s[1] == '$' || s[1] == '{' || IdentStart(s[1]))
  }

  lemma FaultReads(s: string)
    requires s != []
    ensures Fault(s) ==> Lex(s).Bad?
  {
  }

  /** A head reads as its token, spanning its own bytes. */
  lemma HeadReads(s: string, head: string, t: Token, rest: string)
    requires Heads(s, head, t, rest)
    ensures Lex(s) == Resume([t], Bytes(head), Lex(rest))
  {
    hide Lex, Escape, IdentRun;
    match t {
      case Ch(c) => CharacterReads(c, rest);
      case Ref(name) =>
        if head == "$" + name && Simple(name) && (rest == [] || !IdentChar(rest[0])) {
          BareReads(name, rest);
          SimpleBytes(name);
          BytesConcat("$", name);
          assert "$"[1..] == "";
        } else {
          QuotedReads(name, rest);
          QuotedBytes(name);
        }
    }
  }

  lemma {:induction false} SimpleBytes(name: string)
    requires forall i :: 0 <= i < |name| ==> IdentChar(name[i])
    ensures Bytes(name) == |name|
  {
    if name != [] {
      assert IdentChar(name[0]);
      SimpleBytes(name[1..]);
    }
  }

  lemma QuotedBytes(name: string)
    ensures Bytes("${" + Escape(name) + "}") == 3 + Bytes(Escape(name))
  {
    hide Escape;
    BytesConcat("${" + Escape(name), "}");
    BytesConcat("${", Escape(name));
    BraceByte();
    assert "${"[1..] == "{" && "{"[1..] == "";
  }

  lemma {:induction false} EscapeGrows(name: string)
    ensures Bytes(name) <= Bytes(Escape(name))
  {
    hide Escape, Bytes;
    EscapeStep(name);
    if name != [] {
      EscapeGrows(name[1..]);
      BytesConcat(Escape([name[0]]), Escape(name[1..]));
      BytesConcat([name[0]], name[1..]);
      assert [name[0]] + name[1..] == name;
      if name[0] == '}' { TwoBraces(); }
    }
  }

  lemma TwoBraces()
    ensures Bytes("}") <= Bytes("}}")
  {
    assert "}}" == "}" + "}";
    BytesConcat("}", "}");
  }

  /** The printer never spells a token longer than a template did. */
  lemma HeadIsNoShorter(s: string, head: string, t: Token, rest: string, ts: seq<Token>)
    requires Heads(s, head, t, rest)
    requires ts != [] && ts[0].Ch? ==> rest != [] && rest[0] == ts[0].c
    ensures Bytes(Spell(t, ts)) <= Bytes(head)
  {
    hide Escape;
    if t.Ref? {
      QuotedBytes(t.name);
      EscapeGrows(t.name);
      BytesConcat("$", t.name);
      assert "$"[1..] == "";
    }
  }

  /** Tokens a template reads as are printable, and printing them takes no more bytes. */
  lemma {:induction false} ReadingsArePrintable(s: string)
    requires Lex(s).Tokens?
    ensures Printable(Lex(s).tokens) && Bytes(PrintTokens(Lex(s).tokens)) <= Bytes(s)
    ensures (s == []) == (Lex(s).tokens == [])
    ensures s != [] && Lex(s).tokens[0].Ch? ==> s[0] == Lex(s).tokens[0].c
    decreases |s|
  {
    hide Lex, Escape, Bytes, Fault;
    if s == [] {
      EmptyReads();
    } else {
      FaultReads(s);
      var head, t, rest := FirstToken(s);
      HeadReads(s, head, t, rest);
      ReadingsArePrintable(rest);
      var ts := Lex(rest).tokens;
      assert Lex(s).tokens == [t] + ts && ([t] + ts)[1..] == ts;
      HeadIsNoShorter(s, head, t, rest, ts);
      BytesConcat(head, rest);
      BytesConcat(Spell(t, ts), PrintTokens(ts));
      PrintableTail([t] + ts);
    }
  }

  // ---- the first malformed reference ----

  /** A well-formed prefix keeps its reading before a reference. */
  lemma {:induction false} PrefixReads(a: string, b: string)
    requires Lex(a).Tokens? && (b == [] || b[0] == '$')
    ensures Lex(a + b) == Resume(Lex(a).tokens, Bytes(a), Lex(b))
    decreases |a|
  {
    hide Lex, Escape, Bytes, Fault;
    if a == [] {
      EmptyReads();
      assert a + b == b;
      NoBytes();
      if Lex(b).Tokens? { assert [] + Lex(b).tokens == Lex(b).tokens; }
    } else {
      FaultReads(a);
      var head, t, rest := FirstToken(a);
      HeadReads(a, head, t, rest);
      PrefixReads(rest, b);
      assert a + b == head + (rest + b);
      HeadReads(a + b, head, t, rest + b);
      BytesConcat(head, rest);
      if Lex(b).Tokens? { assert [t] + (Lex(rest).tokens + Lex(b).tokens) == [t] + Lex(rest).tokens + Lex(b).tokens; }
    }
  }

  lemma NoBytes()
    ensures Bytes([]) == 0
  {
  }

  /** `b` starts with a malformed reference of this kind. */
  ghost predicate MalformedAt(b: string, kind: ErrorKind) {
    && b != [] && b[0] == '$'
    && match kind
       case Dangling => DanglingAt(b)
       case Unclosed => |b| > 1 && b[1] == '{' && Escaped(b[2..])
       case EmptyReference => |b| > 2 && b[1] == '{' && b[2] == '}' && Unbraced(b[3..])
       case _ => false
  }

  /** Where in a malformed reference the error is reported: its dollar, or its brace. */
  function Reported(kind: ErrorKind): nat { if kind == Dangling then 0 else 1 }

  lemma MalformedReads(b: string, kind: ErrorKind)
    requires b != [] && b[0] == '$'
    ensures MalformedAt(b, kind) <==> Fault(b) && Lex(b) == Bad(kind, Reported(kind))
  {
    hide Bytes, IdentRun, Escaped, ReadBraced;
    if |b| > 1 && b[1] == '{' {
      UnclosedIffEscape(b[2..]);
      EmptyName(b[2..]);
      if |b| > 2 { assert b[2..][1..] == b[3..] && b[2..][0] == b[2]; }
    }
  }

  lemma EmptyName(s: string)
    ensures ReadBraced(s).Closed? && ReadBraced(s).name == [] <==> s != [] && s[0] == '}' && Unbraced(s[1..])
  {
    if s != [] && s[0] == '}' && |s| > 1 { assert s[1..][0] == s[1]; }
  }

  /** The prefix before the first malformed reference is well-formed. */
  lemma {:induction false} FirstFault(s: string) returns (a: string, b: string)
    requires Lex(s).Bad?
    ensures s == a + b && Lex(a).Tokens? && b != [] && b[0] == '$' && Fault(b)
    decreases |s|
  {
    hide Lex, Escape, Bytes, Fault;
    EmptyReads();
    if Fault(s) {
      FaultIsReference(s);
      a, b := [], s;
      assert a + b == s;
    } else {
      var head, t, rest := FirstToken(s);
      HeadReads(s, head, t, rest);
      var a', b' := FirstFault(rest);
      a, b := head + a', b';
      assert head + (a' + b') == head + a' + b';
      HeadReads(a, head, t, a');
    }
  }

  lemma FaultIsReference(s: string)
    requires Fault(s)
    ensures s != [] && s[0] == '$' && Lex(s).Bad?
  {
  }

  /** A template is refused for a malformed reference exactly when a well-formed prefix is followed by
      one, and the position reported is the byte where that reference's dollar or brace stands. */
  lemma MalformedIff(s: string, kind: ErrorKind, pos: nat)
    ensures Lex(s) == Bad(kind, pos) <==>
            exists a, b :: s == a + b && Lex(a).Tokens? && MalformedAt(b, kind) && pos == Bytes(a) + Reported(kind)
  {
    hide Lex, Bytes, Fault, MalformedAt;
    if Lex(s) == Bad(kind, pos) {
      var a, b := FirstFault(s);
      PrefixReads(a, b);
      FaultKind(b);
      MalformedReads(b, kind);
    }
    if a, b :| s == a + b && Lex(a).Tokens? && MalformedAt(b, kind) && pos == Bytes(a) + Reported(kind) {
      MalformedStart(b, kind);
      MalformedReads(b, kind);
      PrefixReads(a, b);
    }
  }

  lemma MalformedStart(b: string, kind: ErrorKind)
    requires MalformedAt(b, kind)
    ensures b != [] && b[0] == '$'
  {
  }

  lemma FaultKind(b: string)
    requires Fault(b)
    ensures Lex(b).Bad? && Lex(b).pos == Reported(Lex(b).kind)
  {
  }
}

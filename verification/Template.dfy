/** The template language: tokens, the reading of a template, and segments. */
module Template {
  import opened Text

  const FORMAT_MAX_BYTES := 16 * 1024
  const FORMAT_MAX_REFS := 64

  datatype Segment = Literal(text: string) | Column(name: string)

  datatype ErrorKind = Empty | TooLong | Unclosed | EmptyReference | Dangling | TooManyReferences

  /** `pos` is the byte position the error was detected at. */
  datatype Parsed = Ok(segs: seq<Segment>) | Err(kind: ErrorKind, pos: nat)

  /** A template before adjacent literal characters are joined. */
  datatype Token = Ch(c: char) | Ref(name: string)

  datatype Lexed = Tokens(tokens: seq<Token>) | Bad(kind: ErrorKind, pos: nat)

  /** The decoded name of a braced reference and the characters it spans, its brace included. */
  datatype Braced = Open | Closed(name: string, length: nat)

  predicate IdentStart(c: char) { 'a' <= c <= 'z' || 'A' <= c <= 'Z' || c == '_' }

  predicate IdentChar(c: char) { IdentStart(c) || '0' <= c <= '9' }

  /** A name `$name` can spell. */
  predicate Simple(name: string) {
    name != [] && IdentStart(name[0]) && forall i :: 0 <= i < |name| ==> IdentChar(name[i])
  }

  /** Length of the longest prefix of identifier characters. */
  function IdentRun(s: string): (n: nat)
    ensures n <= |s|
    ensures forall i :: 0 <= i < n ==> IdentChar(s[i])
    ensures n == |s| || !IdentChar(s[n])
  {
    if s == [] || !IdentChar(s[0]) then 0 else 1 + IdentRun(s[1..])
  }

  function Extend(prefix: string, n: nat, b: Braced): Braced {
    match b
    case Open => Open
    case Closed(name, k) => Closed(prefix + name, n + k)
  }

  /** Reads the inside of `${...}`: a doubled brace is a brace of the name, a single one closes. */
  function ReadBraced(s: string): (b: Braced)
    ensures b.Closed? ==> 1 <= b.length <= |s|
  {
    if s == [] then Open
    else if s[0] != '}' then Extend([s[0]], 1, ReadBraced(s[1..]))
    else if |s| > 1 && s[1] == '}' then Extend("}", 2, ReadBraced(s[2..]))
    else Closed("", 1)
  }

  /** `done` read from the first `bytes` bytes, then `rest`. */
  function Resume(done: seq<Token>, bytes: nat, rest: Lexed): Lexed {
    match rest
    case Tokens(ts) => Tokens(done + ts)
    case Bad(kind, pos) => Bad(kind, bytes + pos)
  }

  /** The first token of a template, the characters and the bytes it spans; or what is wrong there. */
  datatype Head = Read(token: Token, length: nat, bytes: nat) | Malformed(kind: ErrorKind, pos: nat)

  function FirstOf(s: string): (h: Head)
    requires s != []
    ensures h.Read? ==> 1 <= h.length <= |s|
  {
    if s[0] != '$' then Read(Ch(s[0]), 1, CharBytes(s[0]))
    else if |s| == 1 then Malformed(Dangling, 0)
    else if s[1] == '$' then Read(Ch('$'), 2, 2)
    else if IdentStart(s[1]) then
      var n := IdentRun(s[1..]);
      Read(Ref(s[1..1 + n]), 1 + n, 1 + n)
    else if s[1] == '{' then
      match ReadBraced(s[2..])
      case Open => Malformed(Unclosed, 1)
      case Closed(name, n) =>
        if name == [] then Malformed(EmptyReference, 1) else Read(Ref(name), 2 + n, 2 + Bytes(s[2..2 + n]))
    else Malformed(Dangling, 0)
  }

  /** The reading of a template. */
  function Lex(s: string): Lexed {
    if s == [] then Tokens([])
    else match FirstOf(s)
      case Malformed(kind, pos) => Bad(kind, pos)
      case Read(t, n, bytes) => Resume([t], bytes, Lex(s[n..]))
  }

  lemma LexFirst(s: string)
    requires s != []
    ensures FirstOf(s).Malformed? ==> Lex(s) == Bad(FirstOf(s).kind, FirstOf(s).pos)
    ensures FirstOf(s).Read? ==> Lex(s) == Resume([FirstOf(s).token], FirstOf(s).bytes, Lex(s[FirstOf(s).length..]))
  {
    hide FirstOf;
  }

  /** One more token: a character joins a literal at the end. */
  function Join(segs: seq<Segment>, t: Token): seq<Segment> {
    match t
    case Ref(name) => segs + [Column(name)]
    case Ch(c) =>
      if segs != [] && segs[|segs| - 1].Literal?
      then segs[..|segs| - 1] + [Literal(segs[|segs| - 1].text + [c])]
      else segs + [Literal([c])]
  }

  function Coalesce(ts: seq<Token>): seq<Segment> {
    if ts == [] then [] else Join(Coalesce(ts[..|ts| - 1]), ts[|ts| - 1])
  }

  /** The referenced columns, in order of first occurrence. */
  function Referenced(segs: seq<Segment>): seq<string> {
    if segs == [] then []
    else
      var before, last := Referenced(segs[..|segs| - 1]), segs[|segs| - 1];
      if last.Column? && last.name !in before then before + [last.name] else before
  }

  function Parse(template: string): Parsed {
    if template == [] then Err(Empty, 0)
    else if Bytes(template) > FORMAT_MAX_BYTES then Err(TooLong, FORMAT_MAX_BYTES)
    else match Lex(template)
      case Bad(kind, pos) => Err(kind, pos)
      case Tokens(ts) =>
        if |Referenced(Coalesce(ts))| > FORMAT_MAX_REFS then Err(TooManyReferences, 0) else Ok(Coalesce(ts))
  }
}

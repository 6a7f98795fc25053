/** The parser's loops, proved to compute the reading of the template. */
module TemplateParser {
  import opened Text
  import opened Template

  /** The segments pushed so far and the literal still open. */
  function Flush(segs: seq<Segment>, literal: string): seq<Segment> {
    if literal == [] then segs else segs + [Literal(literal)]
  }

  predicate Pending(segs: seq<Segment>, literal: string, done: seq<Token>) {
    && Coalesce(done) == Flush(segs, literal)
    && (segs != [] ==> segs[|segs| - 1].Column?)
  }

  lemma PushCharacter(segs: seq<Segment>, literal: string, done: seq<Token>, c: char)
    requires Pending(segs, literal, done)
    ensures Pending(segs, literal + [c], done + [Ch(c)])
  {
    assert (done + [Ch(c)])[..|done|] == done;
    var f := Flush(segs, literal);
    assert Coalesce(done + [Ch(c)]) == Join(f, Ch(c));
    if literal == [] {
      assert literal + [c] == [c];
    } else {
      assert f[..|f| - 1] == segs;
    }
  }

  lemma PushColumn(segs: seq<Segment>, literal: string, done: seq<Token>, name: string)
    requires Pending(segs, literal, done)
    ensures Pending(Flush(segs, literal) + [Column(name)], [], done + [Ref(name)])
  {
    assert (done + [Ref(name)])[..|done|] == done;
  }

  lemma ResumeTwice(done: seq<Token>, bytes: nat, t: Token, n: nat, rest: Lexed)
    ensures Resume(done, bytes, Resume([t], n, rest)) == Resume(done + [t], bytes + n, rest)
  {
    if rest.Tokens? { assert done + ([t] + rest.tokens) == done + [t] + rest.tokens; }
  }

  lemma ExtendTwice(name: string, n: nat, more: string, k: nat, b: Braced)
    ensures Extend(name, n, Extend(more, k, b)) == Extend(name + more, n + k, b)
  {
    if b.Closed? { assert name + (more + b.name) == name + more + b.name; }
  }

  /** The name after `$`: every identifier character up to the first other one. */
  method ReadName(template: string, start: nat) returns (name: string, end: nat)
    requires start <= |template|
    ensures end == start + IdentRun(template[start..]) && name == template[start..end]
  {
    name, end := [], start;
    while end < |template| && IdentChar(template[end])
      invariant start <= end <= |template| && name == template[start..end]
      invariant IdentRun(template[start..]) == end - start + IdentRun(template[end..])
    {
      assert template[end..][1..] == template[end + 1..];
      name := name + [template[end]];
      end := end + 1;
    }
  }

  /** The name inside `${...}`. */
  method ReadReference(template: string, start: nat) returns (name: string, end: nat, closed: bool)
    requires start <= |template|
    ensures start <= end <= |template|
    ensures closed ==> ReadBraced(template[start..]) == Closed(name, end - start)
    ensures !closed ==> ReadBraced(template[start..]) == Open
  {
    name, end, closed := [], start, false;
    while end < |template|
      invariant start <= end <= |template|
      invariant ReadBraced(template[start..]) == Extend(name, end - start, ReadBraced(template[end..]))
    {
      var rest := template[end..];
      assert rest[1..] == template[end + 1..];
      var c := template[end];
      if c == '}' {
        if end + 1 < |template| && template[end + 1] == '}' {
          assert rest[2..] == template[end + 2..];
          ExtendTwice(name, end - start, "}", 2, ReadBraced(template[end + 2..]));
          name := name + ['}'];
          end := end + 2;
        } else {
          end := end + 1;
          closed := true;
          return;
        }
      } else {
        ExtendTwice(name, end - start, [c], 1, ReadBraced(template[end + 1..]));
        name := name + [c];
        end := end + 1;
      }
    }
  }

  method ByteLength(s: string) returns (n: nat)
    ensures n == Bytes(s)
  {
    n := 0;
    for i := 0 to |s|
      invariant Bytes(s) == n + Bytes(s[i..])
    {
      assert s[i..][1..] == s[i + 1..];
      n := n + CharBytes(s[i]);
    }
  }

  /** `done` is read from the first `i` characters, which are `pos` bytes. */
  ghost predicate Reading(template: string, i: nat, pos: nat, done: seq<Token>) {
    i <= |template| && Lex(template) == Resume(done, pos, Lex(template[i..]))
  }

  lemma ReadOn(template: string, i: nat, pos: nat, done: seq<Token>, t: Token, n: nat, next: nat)
    requires Reading(template, i, pos, done) && i <= next <= |template|
    requires Lex(template[i..]) == Resume([t], n, Lex(template[next..]))
    ensures Reading(template, next, pos + n, done + [t])
  {
    ResumeTwice(done, pos, t, n, Lex(template[next..]));
  }

  lemma ReadCharacter(template: string, i: nat)
    requires i < |template|
    ensures template[i] != '$' ==>
              Lex(template[i..]) == Resume([Ch(template[i])], CharBytes(template[i]), Lex(template[i + 1..]))
    ensures template[i] == '$' && i + 1 < |template| && template[i + 1] == '$' ==>
              Lex(template[i..]) == Resume([Ch('$')], 2, Lex(template[i + 2..]))
  {
    hide Lex, IdentRun, ReadBraced, Bytes, CharBytes;
    LexFirst(template[i..]);
    assert template[i..][1..] == template[i + 1..];
    if i + 1 < |template| { assert template[i..][2..] == template[i + 2..]; }
  }

  lemma ReadSimple(template: string, i: nat, end: nat)
    requires i + 1 < |template| && template[i] == '$' && IdentStart(template[i + 1])
    requires end == i + 1 + IdentRun(template[i + 1..])
    ensures Lex(template[i..]) == Resume([Ref(template[i + 1..end])], end - i, Lex(template[end..]))
  {
    hide Lex, IdentRun, ReadBraced, Bytes;
    var rest := template[i..];
    LexFirst(rest);
    assert rest[1..] == template[i + 1..] && rest[end - i..] == template[end..] && rest[1..end - i] == template[i + 1..end];
  }

  lemma ReadQuoted(template: string, i: nat, name: string, end: nat)
    requires i + 1 < |template| && template[i] == '$' && template[i + 1] == '{' && i + 2 <= end <= |template|
    requires ReadBraced(template[i + 2..]) == Closed(name, end - (i + 2))
    ensures name == [] ==> Lex(template[i..]) == Bad(EmptyReference, 1)
    ensures name != [] ==>
              Lex(template[i..]) == Resume([Ref(name)], 2 + Bytes(template[i + 2..end]), Lex(template[end..]))
  {
    hide Lex;
    var rest := template[i..];
    assert rest[2..] == template[i + 2..] && rest[end - i..] == template[end..] && rest[2..end - i] == template[i + 2..end];
    LexQuoted(rest, name, end - (i + 2));
  }

  lemma LexQuoted(s: string, name: string, n: nat)
    requires |s| > 1 && s[0] == '$' && s[1] == '{' && 2 + n <= |s| && ReadBraced(s[2..]) == Closed(name, n)
    ensures name == [] ==> Lex(s) == Bad(EmptyReference, 1)
    ensures name != [] ==> Lex(s) == Resume([Ref(name)], 2 + Bytes(s[2..2 + n]), Lex(s[2 + n..]))
  {
    hide IdentRun, ReadBraced, Bytes, Lex;
    LexFirst(s);
  }

  lemma ReadMalformed(template: string, i: nat)
    requires i < |template| && template[i] == '$'
    ensures i + 1 == |template| || !(template[i + 1] == '$' || IdentStart(template[i + 1]) || template[i + 1] == '{') ==>
              Lex(template[i..]) == Bad(Dangling, 0)
    ensures i + 1 < |template| && template[i + 1] == '{' && ReadBraced(template[i + 2..]) == Open ==>
              Lex(template[i..]) == Bad(Unclosed, 1)
  {
    if i + 1 < |template| { assert template[i..][2..] == template[i + 2..]; }
  }

  /** The loop over the template's characters: segments, or the first malformed reference. */
  method ReadSegments(template: string) returns (r: Parsed)
    ensures r == match Lex(template) case Bad(kind, pos) => Err(kind, pos) case Tokens(ts) => Ok(Coalesce(ts))
  {
    hide Coalesce, IdentRun, ReadBraced, Bytes, CharBytes, Pending, Lex, Reading, Flush;
    var segs: seq<Segment>, literal: string := [], "";
    var i: nat, pos: nat := 0, 0;
    ghost var done: seq<Token> := [];
    NothingRead(template);
    while i < |template|
      invariant i <= |template|
      invariant Pending(segs, literal, done)
      invariant Reading(template, i, pos, done)
      decreases |template| - i
    {
      ReadCharacter(template, i);
      if template[i] != '$' {
        ReadOn(template, i, pos, done, Ch(template[i]), CharBytes(template[i]), i + 1);
        PushCharacter(segs, literal, done, template[i]);
        done := done + [Ch(template[i])];
        literal, pos, i := literal + [template[i]], pos + CharBytes(template[i]), i + 1;
      } else if i + 1 < |template| && template[i + 1] == '$' {
        ReadOn(template, i, pos, done, Ch('$'), 2, i + 2);
        PushCharacter(segs, literal, done, '$');
        done := done + [Ch('$')];
        literal, pos, i := literal + ['$'], pos + 2, i + 2;
      } else if i + 1 < |template| && IdentStart(template[i + 1]) {
        var name, end := ReadName(template, i + 1);
        ReadSimple(template, i, end);
        ReadOn(template, i, pos, done, Ref(name), end - i, end);
        PushColumn(segs, literal, done, name);
        done := done + [Ref(name)];
        segs := Flush(segs, literal) + [Column(name)];
        literal, pos, i := "", pos + (end - i), end;
      } else if i + 1 < |template| && template[i + 1] == '{' {
        var name, end, closed := ReadReference(template, i + 2);
        if !closed {
          ReadMalformed(template, i);
          Stop(template, i, pos, done);
          return Err(Unclosed, pos + 1);
        }
        ReadQuoted(template, i, name, end);
        if name == "" {
          Stop(template, i, pos, done);
          return Err(EmptyReference, pos + 1);
        }
        var spanned := ByteLength(template[i + 2..end]);
        ReadOn(template, i, pos, done, Ref(name), 2 + spanned, end);
        PushColumn(segs, literal, done, name);
        done := done + [Ref(name)];
        segs := Flush(segs, literal) + [Column(name)];
        literal, pos, i := "", pos + 2 + spanned, end;
      } else {
        ReadMalformed(template, i);
        Stop(template, i, pos, done);
        return Err(Dangling, pos);
      }
    }
    AllRead(template, pos, segs, literal, done);
    r := Ok(Flush(segs, literal));
  }

  lemma NothingRead(template: string)
    ensures Pending([], [], []) && Reading(template, 0, 0, [])
  {
    assert template[0..] == template;
    if Lex(template).Tokens? { assert [] + Lex(template).tokens == Lex(template).tokens; }
  }

  lemma Stop(template: string, i: nat, pos: nat, done: seq<Token>)
    requires Reading(template, i, pos, done) && Lex(template[i..]).Bad?
    ensures Lex(template) == Bad(Lex(template[i..]).kind, pos + Lex(template[i..]).pos)
  {
  }

  lemma AllRead(template: string, pos: nat, segs: seq<Segment>, literal: string, done: seq<Token>)
    requires Reading(template, |template|, pos, done) && Pending(segs, literal, done)
    ensures Lex(template) == Tokens(done) && Coalesce(done) == Flush(segs, literal)
  {
    assert template[|template|..] == [] && done + [] == done;
  }

  /** The distinct referenced columns, by a scan that keeps the first use of each. */
  method FormatReferencedColumns(segs: seq<Segment>) returns (out: seq<string>)
    ensures out == Referenced(segs)
  {
    out := [];
    for i := 0 to |segs|
      invariant out == Referenced(segs[..i])
    {
      assert segs[..i + 1][..i] == segs[..i];
      if segs[i].Column? && segs[i].name !in out {
        out := out + [segs[i].name];
      }
    }
    assert segs[..|segs|] == segs;
  }

  /** The parser computes exactly the reading of the template, errors and positions included. */
  method ParseFormat(template: string) returns (r: Parsed)
    ensures r == Parse(template)
  {
    if template == "" { return Err(Empty, 0); }
    var length := ByteLength(template);
    if length > FORMAT_MAX_BYTES { return Err(TooLong, FORMAT_MAX_BYTES); }
    r := ReadSegments(template);
    if r.Ok? {
      var distinct := FormatReferencedColumns(r.segs);
      if |distinct| > FORMAT_MAX_REFS { return Err(TooManyReferences, 0); }
    }
  }
}

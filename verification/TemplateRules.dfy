/** The reading of a template rule by rule, with the characters of each rule written out. */
module TemplateRules {
  import opened Text
  import opened Template
  import opened TemplateRoundTrip
  import opened TemplateImage

  /** A letter, a digit or an underscore extends a bare name and nothing else does: the name is a
      reference, and what follows it is read on its own. */
  lemma BareNameReads(name: string, rest: string)
    requires name != [] && ('A' <= name[0] <= 'Z' || 'a' <= name[0] <= 'z' || name[0] == '_')
    requires forall i :: 0 < i < |name| ==>
               'A' <= name[i] <= 'Z' || 'a' <= name[i] <= 'z' || name[i] == '_' || '0' <= name[i] <= '9'
    requires rest == [] ||
               !('A' <= rest[0] <= 'Z' || 'a' <= rest[0] <= 'z' || rest[0] == '_' || '0' <= rest[0] <= '9')
    ensures Lex("$" + name + rest) == Resume([Ref(name)], 1 + |name|, Lex(rest))
  {
    hide Lex, FirstOf;
    BareReads(name, rest);
  }

  /** A bare name alone is a template of that one column. */
  lemma BareNameParses(name: string)
    requires name != [] && ('A' <= name[0] <= 'Z' || 'a' <= name[0] <= 'z' || name[0] == '_')
    requires forall i :: 0 < i < |name| ==>
               'A' <= name[i] <= 'Z' || 'a' <= name[i] <= 'z' || name[i] == '_' || '0' <= name[i] <= '9'
    ensures Parse("$" + name) == if 1 + |name| <= 16 * 1024 then Ok([Column(name)]) else Err(TooLong, 16 * 1024)
  {
    hide Lex, Bytes;
    BareNameReads(name, "");
    assert "$" + name + "" == "$" + name;
    EmptyReads();
    assert Bytes("$" + name) == 1 + |name| by {
      BytesConcat("$", name);
      DollarByte();
      SimpleBytes(name);
    }
    assert [Ref(name)] + [] == [Ref(name)];
    OneColumn(name);
  }

  lemma OneColumn(name: string)
    ensures Coalesce([Ref(name)]) == [Column(name)] && Referenced([Column(name)]) == [name]
  {
    assert [Ref(name)][..0] == [] && [Column(name)][..0] == [];
  }

  lemma DollarByte()
    ensures Bytes("$") == 1
  {
    assert "$"[1..] == "";
  }

  /** The first segment of a template that starts with a bare name is that column, whatever ends it. */
  lemma NameEnds(name: string, rest: string)
    requires name != [] && ('A' <= name[0] <= 'Z' || 'a' <= name[0] <= 'z' || name[0] == '_')
    requires forall i :: 0 < i < |name| ==>
               'A' <= name[i] <= 'Z' || 'a' <= name[i] <= 'z' || name[i] == '_' || '0' <= name[i] <= '9'
    requires rest == [] ||
               !('A' <= rest[0] <= 'Z' || 'a' <= rest[0] <= 'z' || rest[0] == '_' || '0' <= rest[0] <= '9')
    requires Parse("$" + name + rest).Ok?
    ensures Parse("$" + name + rest).segs[..1] == [Column(name)]
  {
    hide Lex, Bytes;
    BareNameReads(name, rest);
    var ts := Lex(rest).tokens;
    FirstSegment(name, ts);
  }

  lemma {:induction false} FirstSegment(name: string, ts: seq<Token>)
    ensures Coalesce([Ref(name)] + ts)[..1] == [Column(name)]
  {
    if ts == [] {
      OneColumn(name);
      assert [Ref(name)] + ts == [Ref(name)];
    } else {
      var init, t := ts[..|ts| - 1], ts[|ts| - 1];
      FirstSegment(name, init);
      assert [Ref(name)] + ts == ([Ref(name)] + init) + [t];
      CoalesceSnoc([Ref(name)] + init, t);
    }
  }

  /** A dollar before anything but a dollar, a brace, a letter or an underscore stands alone, and the
      template is refused where it stands. */
  lemma StrayDollar(rest: string)
    requires rest == [] || !(rest[0] == '$' || rest[0] == '{' || 'A' <= rest[0] <= 'Z' || 'a' <= rest[0] <= 'z' || rest[0] == '_')
    requires Bytes("$" + rest) <= 16 * 1024
    ensures Parse("$" + rest) == Err(Dangling, 0)
  {
    hide Bytes, IdentRun, ReadBraced;
    var s := "$" + rest;
    assert rest != [] ==> s[1] == rest[0];
    LexFirst(s);
  }

  /** A template is accepted exactly when it is not empty, not too long, holds no malformed reference
      and names at most 64 columns. */
  lemma ParsesIff(template: string)
    ensures Parse(template).Ok? <==>
              && template != [] && Bytes(template) <= 16 * 1024
              && !(exists a, b, kind :: template == a + b && Lex(a).Tokens? && MalformedAt(b, kind))
              && |Columns(template)| <= 64
  {
    hide Lex, Bytes, MalformedAt, Referenced, Coalesce;
    if Lex(template).Bad? {
      MalformedIff(template, Lex(template).kind, Lex(template).pos);
    } else {
      if a, b, kind :| template == a + b && Lex(a).Tokens? && MalformedAt(b, kind) {
        MalformedIff(template, kind, Bytes(a) + Reported(kind));
      }
      DistinctColumns(Coalesce(Lex(template).tokens));
    }
  }

  /** The columns a well-formed template names. */
  function Columns(template: string): set<string> {
    match Lex(template)
    case Bad(_, _) => {}
    case Tokens(ts) => set t | t in Coalesce(ts) && t.Column? :: t.name
  }

  lemma DistinctColumns(segs: seq<Segment>)
    ensures |Referenced(segs)| == |set t | t in segs && t.Column? :: t.name|
  {
    hide Referenced;
    ReferencedExact(segs);
    var names := Referenced(segs);
    CountDistinct(names);
    assert (set n | n in names) == set t | t in segs && t.Column? :: t.name;
  }

  lemma {:induction false} CountDistinct(names: seq<string>)
    requires forall i, j :: 0 <= i < j < |names| ==> names[i] != names[j]
    ensures |set n | n in names| == |names|
  {
    if names != [] {
      var init, last := names[..|names| - 1], names[|names| - 1];
      CountDistinct(init);
      assert (set n | n in names) == (set n | n in init) + {last};
    }
  }
}

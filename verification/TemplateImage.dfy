/** The segment lists the parser produces, exactly: the printer inverts the parser on them. */
module TemplateImage {
  import opened Text
  import opened Template
  import opened TemplateRoundTrip

  // ---- segments and tokens ----

  function Characters(text: string): (ts: seq<Token>)
    ensures |ts| == |text|
  {
    seq(|text|, i requires 0 <= i < |text| => Ch(text[i]))
  }

  function Unjoin(s: Segment): seq<Token> {
    match s
    case Literal(text) => Characters(text)
    case Column(name) => [Ref(name)]
  }

  /** The tokens of a segment list. */
  function Flatten(segs: seq<Segment>): seq<Token> {
    if segs == [] then [] else Flatten(segs[..|segs| - 1]) + Unjoin(segs[|segs| - 1])
  }

  /** No empty literal and no two literals side by side. */
  predicate Tidy(segs: seq<Segment>) {
    && (forall i :: 0 <= i < |segs| && segs[i].Literal? ==> segs[i].text != [])
    && (forall i :: 0 < i < |segs| && segs[i].Literal? ==> segs[i - 1].Column?)
  }

  lemma TidyInit(segs: seq<Segment>)
    requires Tidy(segs) && segs != []
    ensures Tidy(segs[..|segs| - 1])
  {
    var init := segs[..|segs| - 1];
    assert forall i :: 0 <= i < |init| ==> init[i] == segs[i];
  }

  lemma TidyExtend(segs: seq<Segment>, s: Segment)
    requires Tidy(segs) && (s.Literal? ==> s.text != [] && (segs == [] || segs[|segs| - 1].Column?))
    ensures Tidy(segs + [s])
  {
    var all := segs + [s];
    assert forall i :: 0 <= i < |segs| ==> all[i] == segs[i];
  }

  lemma FlattenSnoc(segs: seq<Segment>, s: Segment)
    ensures Flatten(segs + [s]) == Flatten(segs) + Unjoin(s)
  {
    assert (segs + [s])[..|segs|] == segs;
  }

  lemma CoalesceSnoc(ts: seq<Token>, t: Token)
    ensures Coalesce(ts + [t]) == Join(Coalesce(ts), t)
  {
    assert (ts + [t])[..|ts|] == ts;
  }

  lemma CharactersSnoc(text: string, c: char)
    ensures Characters(text + [c]) == Characters(text) + [Ch(c)]
  {
  }

  lemma BeforeLiteral(segs: seq<Segment>)
    requires Tidy(segs) && segs != [] && segs[|segs| - 1].Literal?
    ensures var init := segs[..|segs| - 1]; init == [] || init[|init| - 1].Column?
  {
    var init := segs[..|segs| - 1];
    if init != [] { assert init[|init| - 1] == segs[|segs| - 2]; }
  }

  /** Joining a token keeps a tidy list tidy and adds exactly that token. */
  lemma JoinTidy(segs: seq<Segment>, t: Token)
    requires Tidy(segs)
    ensures Tidy(Join(segs, t)) && Flatten(Join(segs, t)) == Flatten(segs) + [t]
  {
    hide Flatten, Characters, Tidy;
    match t {
      case Ref(name) =>
        TidyExtend(segs, Column(name));
        FlattenSnoc(segs, Column(name));
      case Ch(c) =>
        if segs != [] && segs[|segs| - 1].Literal? {
          JoinOpen(segs, c);
        } else {
          TidyExtend(segs, Literal([c]));
          FlattenSnoc(segs, Literal([c]));
          CharactersSnoc([], c);
          assert [] + [c] == [c] && Characters([]) + [Ch(c)] == [Ch(c)];
        }
    }
  }

  lemma JoinOpen(segs: seq<Segment>, c: char)
    requires Tidy(segs) && segs != [] && segs[|segs| - 1].Literal?
    ensures Tidy(Join(segs, Ch(c))) && Flatten(Join(segs, Ch(c))) == Flatten(segs) + [Ch(c)]
  {
    hide Flatten, Characters, Tidy, Unjoin;
    var init, last := segs[..|segs| - 1], segs[|segs| - 1];
    var longer := Literal(last.text + [c]);
    assert Join(segs, Ch(c)) == init + [longer];
    assert segs == init + [last];
    TidyInit(segs);
    BeforeLiteral(segs);
    TidyExtend(init, longer);
    FlattenSnoc(init, last);
    FlattenSnoc(init, longer);
    assert Unjoin(longer) == Unjoin(last) + [Ch(c)] by { LongerLiteral(last.text, c); }
    Associate(Flatten(init), Unjoin(last), [Ch(c)]);
  }

  lemma LongerLiteral(text: string, c: char)
    ensures Unjoin(Literal(text + [c])) == Unjoin(Literal(text)) + [Ch(c)]
  {
    CharactersSnoc(text, c);
  }

  lemma Associate(a: seq<Token>, b: seq<Token>, c: seq<Token>)
    ensures a + (b + c) == a + b + c
  {
  }

  lemma NothingTidy()
    ensures Tidy([]) && Flatten([]) == []
  {
  }

  /** Coalescing loses nothing and always gives a tidy list. */
  lemma {:induction false} CoalesceIsTidy(ts: seq<Token>)
    ensures Tidy(Coalesce(ts)) && Flatten(Coalesce(ts)) == ts
  {
    hide Tidy, Flatten, Join;
    if ts == [] {
      NothingTidy();
    } else {
      var init, last := ts[..|ts| - 1], ts[|ts| - 1];
      CoalesceIsTidy(init);
      JoinTidy(Coalesce(init), last);
      assert init + [last] == ts;
    }
  }

  lemma {:induction false} CoalesceText(ts: seq<Token>, text: string)
    requires text != [] && (Coalesce(ts) == [] || Coalesce(ts)[|Coalesce(ts)| - 1].Column?)
    ensures Coalesce(ts + Characters(text)) == Coalesce(ts) + [Literal(text)]
  {
    hide Coalesce, Characters;
    var init, c := text[..|text| - 1], text[|text| - 1];
    assert text == init + [c];
    CharactersSnoc(init, c);
    assert ts + (Characters(init) + [Ch(c)]) == ts + Characters(init) + [Ch(c)];
    CoalesceSnoc(ts + Characters(init), Ch(c));
    if init == [] {
      assert ts + Characters(init) == ts;
      assert text == [c];
    } else {
      CoalesceText(ts, init);
      var all := Coalesce(ts) + [Literal(init)];
      assert all[..|all| - 1] == Coalesce(ts);
    }
  }

  /** A tidy list comes back from its tokens. */
  lemma {:induction false} TidyCoalesces(segs: seq<Segment>)
    requires Tidy(segs)
    ensures Coalesce(Flatten(segs)) == segs
  {
    if segs != [] {
      var init, last := segs[..|segs| - 1], segs[|segs| - 1];
      TidyInit(segs);
      TidyCoalesces(init);
      assert segs == init + [last];
      match last {
        case Column(name) => CoalesceSnoc(Flatten(init), Ref(name));
        case Literal(text) =>
          BeforeLiteral(segs);
          CoalesceText(Flatten(init), text);
      }
    }
  }

  // ---- names ----

  predicate NameSound(segs: seq<Segment>, i: nat)
    requires i < |segs|
  {
    segs[i].Column? ==>
      && segs[i].name != []
      && (i + 1 < |segs| && segs[i + 1].Literal? && "}" <= segs[i + 1].text ==> Simple(segs[i].name))
  }

  /** No empty name, and no name that needs braces in front of a literal that starts with one. */
  predicate NamesSound(segs: seq<Segment>) {
    forall i {:trigger NameSound(segs, i)} :: 0 <= i < |segs| ==> NameSound(segs, i)
  }

  /** What adding `t` after a last element asks. */
  predicate FitsAfter(last: Token, t: Token) {
    last.Ref? && t == Ch('}') ==> Simple(last.name)
  }

  lemma PrintableSnoc(ts: seq<Token>, t: Token)
    ensures Printable(ts + [t]) <==>
              Printable(ts) && (t.Ref? ==> t.name != []) && (ts == [] || FitsAfter(ts[|ts| - 1], t))
  {
    var all := ts + [t];
    forall i | 0 <= i < |ts| - 1 ensures Fits(all, i) == Fits(ts, i) {
      assert all[i] == ts[i] && all[i + 1] == ts[i + 1];
    }
    assert Fits(all, |ts|) == (t.Ref? ==> t.name != []);
    if ts != [] {
      assert all[|ts| - 1] == ts[|ts| - 1];
      assert Fits(all, |ts| - 1) == (Fits(ts, |ts| - 1) && FitsAfter(ts[|ts| - 1], t));
    }
    if Printable(ts) && (t.Ref? ==> t.name != []) && (ts == [] || FitsAfter(ts[|ts| - 1], t)) {
      forall i | 0 <= i < |all| ensures Fits(all, i) {
        if i < |ts| - 1 { assert Fits(all, i) == Fits(ts, i); }
      }
    }
    if Printable(all) {
      forall i | 0 <= i < |ts| ensures Fits(ts, i) {
        if i < |ts| - 1 { assert Fits(all, i) == Fits(ts, i); }
      }
    }
  }

  lemma {:induction false} PrintableText(ts: seq<Token>, text: string)
    requires text != []
    ensures Printable(ts + Characters(text)) <==> Printable(ts) && (ts == [] || FitsAfter(ts[|ts| - 1], Ch(text[0])))
  {
    hide Characters, Printable;
    var init, c := text[..|text| - 1], text[|text| - 1];
    assert text == init + [c];
    CharactersSnoc(init, c);
    assert ts + (Characters(init) + [Ch(c)]) == ts + Characters(init) + [Ch(c)];
    PrintableSnoc(ts + Characters(init), Ch(c));
    if init == [] {
      assert ts + Characters(init) == ts;
    } else {
      PrintableText(ts, init);
      LastCharacter(init);
    }
  }

  lemma LastCharacter(text: string)
    requires text != []
    ensures Characters(text)[|text| - 1] == Ch(text[|text| - 1])
  {
  }

  lemma NamesSoundSnoc(segs: seq<Segment>, s: Segment)
    ensures NamesSound(segs + [s]) <==>
              && NamesSound(segs) && (s.Column? ==> s.name != [])
              && (segs != [] && segs[|segs| - 1].Column? && s.Literal? && "}" <= s.text ==> Simple(segs[|segs| - 1].name))
  {
    var all := segs + [s];
    forall i | 0 <= i < |segs| - 1 ensures NameSound(all, i) == NameSound(segs, i) {
      assert all[i] == segs[i] && all[i + 1] == segs[i + 1];
    }
    assert NameSound(all, |segs|) == (s.Column? ==> s.name != []);
    if segs != [] {
      assert all[|segs| - 1] == segs[|segs| - 1];
      assert NameSound(all, |segs| - 1) ==
             (NameSound(segs, |segs| - 1) && (segs[|segs| - 1].Column? && s.Literal? && "}" <= s.text ==> Simple(segs[|segs| - 1].name)));
    }
    if NamesSound(all) {
      forall i | 0 <= i < |segs| ensures NameSound(segs, i) {
        if i < |segs| - 1 { assert NameSound(all, i) == NameSound(segs, i); }
      }
    }
    if && NamesSound(segs) && (s.Column? ==> s.name != [])
       && (segs != [] && segs[|segs| - 1].Column? && s.Literal? && "}" <= s.text ==> Simple(segs[|segs| - 1].name)) {
      forall i | 0 <= i < |all| ensures NameSound(all, i) {
        if i < |segs| - 1 { assert NameSound(all, i) == NameSound(segs, i); }
      }
    }
  }

  lemma LastToken(segs: seq<Segment>)
    requires Tidy(segs) && segs != []
    ensures Flatten(segs) != []
    ensures var last, t := segs[|segs| - 1], Flatten(segs)[|Flatten(segs)| - 1];
            if last.Column? then t == Ref(last.name) else t.Ch?
  {
  }

  /** On tidy lists the condition on segments is the condition on tokens. */
  lemma {:induction false} SoundIffPrintable(segs: seq<Segment>)
    requires Tidy(segs)
    ensures NamesSound(segs) <==> Printable(Flatten(segs))
  {
    hide Printable, NamesSound, Characters, Tidy;
    if segs == [] {
      NothingSound();
    } else {
      var init, last := segs[..|segs| - 1], segs[|segs| - 1];
      TidyInit(segs);
      SoundIffPrintable(init);
      assert segs == init + [last];
      NamesSoundSnoc(init, last);
      if init != [] { LastToken(init); }
      match last {
        case Column(name) => PrintableSnoc(Flatten(init), Ref(name));
        case Literal(text) =>
          TidyText(segs);
          PrintableText(Flatten(init), text);
      }
    }
  }

  lemma NothingSound()
    ensures NamesSound([]) && Printable([])
  {
  }

  lemma TidyText(segs: seq<Segment>)
    requires Tidy(segs) && segs != [] && segs[|segs| - 1].Literal?
    ensures segs[|segs| - 1].text != []
  {
  }

  // ---- the image of the parser ----

  /** The canonical spelling of a segment list. */
  function Print(segs: seq<Segment>): string { PrintTokens(Flatten(segs)) }

  predicate Canonical(segs: seq<Segment>) { segs != [] && Tidy(segs) && NamesSound(segs) }

  predicate InLimits(segs: seq<Segment>) {
    |Referenced(segs)| <= FORMAT_MAX_REFS && Bytes(Print(segs)) <= FORMAT_MAX_BYTES
  }

  /** Printing then parsing is the identity. */
  lemma PrintInvertsParse(segs: seq<Segment>)
    requires Canonical(segs) && InLimits(segs)
    ensures Parse(Print(segs)) == Ok(segs)
  {
    hide Referenced, Tidy, NamesSound, Printable, Lex, Bytes, Coalesce, Flatten, PrintTokens;
    TidyCoalesces(segs);
    SoundIffPrintable(segs);
    PrintReadsBack(Flatten(segs));
    LastToken(segs);
    PrintStarts(Flatten(segs));
  }

  /** Whatever parses is canonical and in limits, and its printed form is no longer than the template. */
  lemma ParsedIsCanonical(template: string)
    requires Parse(template).Ok?
    ensures var segs := Parse(template).segs;
            Canonical(segs) && InLimits(segs) && Bytes(Print(segs)) <= Bytes(template)
  {
    hide Referenced, Tidy, NamesSound, Printable, Lex, Bytes, Flatten, PrintTokens;
    var ts := Lex(template).tokens;
    ReadingsArePrintable(template);
    CoalesceIsTidy(ts);
    SoundIffPrintable(Coalesce(ts));
  }

  ghost predicate Parses(segs: seq<Segment>) { exists t :: Parse(t) == Ok(segs) }

  /** The image of the parser. */
  lemma ImageExact(segs: seq<Segment>)
    ensures Parses(segs) <==> Canonical(segs) && InLimits(segs)
  {
    hide Canonical, InLimits, Parse;
    if Parses(segs) {
      var t :| Parse(t) == Ok(segs);
      ParsedIsCanonical(t);
    }
    if Canonical(segs) && InLimits(segs) {
      PrintInvertsParse(segs);
    }
  }

  /** Printing what was parsed and parsing again changes nothing. */
  lemma ReprintIsStable(template: string)
    requires Parse(template).Ok?
    ensures Parse(Print(Parse(template).segs)) == Parse(template)
  {
    hide Canonical, InLimits, Parse;
    ParsedIsCanonical(template);
    PrintInvertsParse(Parse(template).segs);
  }

  // ---- the referenced columns ----

  /** `k` is the first use of column `c`. */
  predicate FirstUse(segs: seq<Segment>, c: string, k: nat) {
    k < |segs| && segs[k] == Column(c) && Column(c) !in segs[..k]
  }

  /** Exactly the referenced columns, each once, in order of first use. */
  lemma {:induction false} ReferencedExact(segs: seq<Segment>)
    ensures forall c :: c in Referenced(segs) <==> Column(c) in segs
    ensures forall i, j :: 0 <= i < j < |Referenced(segs)| ==> Referenced(segs)[i] != Referenced(segs)[j]
    ensures forall i, j, k, l {:trigger FirstUse(segs, Referenced(segs)[i], k), FirstUse(segs, Referenced(segs)[j], l)} ::
              0 <= i < j < |Referenced(segs)| && FirstUse(segs, Referenced(segs)[i], k) && FirstUse(segs, Referenced(segs)[j], l)
              ==> k < l
  {
    if segs != [] {
      var n := |segs| - 1;
      var init, last := segs[..n], segs[n];
      ReferencedExact(init);
      assert segs == init + [last];
      var before, all := Referenced(init), Referenced(segs);
      forall i, j, k, l | 0 <= i < j < |all| && FirstUse(segs, all[i], k) && FirstUse(segs, all[j], l) ensures k < l {
        FirstUseInit(segs, all[i], k);
        FirstUseInit(segs, all[j], l);
        assert i < |before| && all[i] == before[i];
        assert Column(all[i]) in init;
        if j < |before| { assert all[j] == before[j]; }
      }
    }
  }

  lemma FirstUseInit(segs: seq<Segment>, c: string, k: nat)
    requires FirstUse(segs, c, k)
    ensures var init := segs[..|segs| - 1];
            if Column(c) in init then FirstUse(init, c, k) else k == |segs| - 1
  {
    var init := segs[..|segs| - 1];
    if Column(c) in init {
      var j :| 0 <= j < |init| && init[j] == Column(c);
      assert forall i :: 0 <= i < k ==> segs[i] == segs[..k][i];
      assert k < |init| && init[k] == segs[k] && init[..k] == segs[..k];
    }
  }
}

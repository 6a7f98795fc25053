/** Public model names to internal names: two indexes rebuilt from the loaded
    configurations, the alphabetically last contributor of a key winning. */
module ModelResolver {

  import opened Names

  /** The part of a model configuration the resolver reads. */
  datatype Config = Config(
    name: Name,
    enabled: bool,
    modelType: Option<string>,
    source: Option<string>,
    target: Option<string>
  )

  /** Key under which the model serves embeddings. */
  function EmbedKey(c: Config): Option<string> {
    if c.modelType == Some("embed") then (if c.target.Some? then c.target else Some(c.name)) else None
  }

  /** Key under which the model converts; a missing type with both ends counts. */
  function ConvertKey(c: Config): Option<(string, string)> {
    if c.modelType != Some("embed") && c.source.Some? && c.target.Some? then Some((c.source.value, c.target.value)) else None
  }

  // ---- the order of names ----

  /** Strict lexicographic order of scalar values, which is the byte order of UTF-8. */
  predicate Before(a: string, b: string) {
    b != [] && (a == [] || a[0] < b[0] || (a[0] == b[0] && Before(a[1..], b[1..])))
  }

  lemma {:induction false} BeforeIsStrict(a: string, b: string)
    ensures !(Before(a, b) && Before(b, a))
  {
    if a != [] && b != [] && a[0] == b[0] { BeforeIsStrict(a[1..], b[1..]); }
  }

  lemma {:induction false} BeforeIsTotal(a: string, b: string)
    ensures Before(a, b) || Before(b, a) || a == b
  {
    if a != [] && b != [] && a[0] == b[0] {
      BeforeIsTotal(a[1..], b[1..]);
      assert a == [a[0]] + a[1..] && b == [b[0]] + b[1..];
    }
  }

  lemma {:induction false} BeforeIsTransitive(a: string, b: string, c: string)
    requires Before(a, b) && Before(b, c)
    ensures Before(a, c)
  {
    if a != [] && a[0] == b[0] == c[0] { BeforeIsTransitive(a[1..], b[1..], c[1..]); }
  }

  /** The names agree up to `k`, and there the first is smaller. */
  predicate SmallerAt(a: string, b: string, k: nat) {
    k < |a| && k < |b| && a[..k] == b[..k] && a[k] < b[k]
  }

  /** One name is before another if it is a proper prefix of it, or smaller where they first differ. */
  lemma {:induction false} BeforeIsLexicographic(a: string, b: string)
    ensures Before(a, b) <==> a < b || exists k: nat :: SmallerAt(a, b, k)
  {
    if a == [] || b == [] {
    } else if a[0] == b[0] {
      BeforeIsLexicographic(a[1..], b[1..]);
      SmallerLater(a, b);
      assert a < b <==> a[1..] < b[1..] by { assert a == [a[0]] + a[1..] && b == [b[0]] + b[1..]; }
    } else {
      assert a[0] < b[0] ==> SmallerAt(a, b, 0);
      assert forall k: nat :: 0 < k <= |a| && k <= |b| ==> a[..k][0] == a[0] && b[..k][0] == b[0];
    }
  }

  lemma SmallerLater(a: string, b: string)
    requires a != [] && b != [] && a[0] == b[0]
    ensures (exists k: nat :: SmallerAt(a, b, k)) <==> exists k: nat :: SmallerAt(a[1..], b[1..], k)
  {
    if k: nat :| SmallerAt(a, b, k) {
      assert a[1..][..k - 1] == a[..k][1..] && b[1..][..k - 1] == b[..k][1..];
      assert SmallerAt(a[1..], b[1..], k - 1);
    }
    if k: nat :| SmallerAt(a[1..], b[1..], k) {
      assert a[..k + 1] == [a[0]] + a[1..][..k] && b[..k + 1] == [b[0]] + b[1..][..k];
      assert SmallerAt(a, b, k + 1);
    }
  }

  // ---- what an index must hold ----

  predicate Contributes<K(==)>(key: Config -> Option<K>, c: Config, k: K) {
    c.enabled && key(c) == Some(k)
  }

  /** `winner` is the alphabetically last name among the contributors of `k`. */
  ghost predicate Wins<K(!new)>(configs: set<Config>, key: Config -> Option<K>, k: K, winner: Name) {
    && (exists c :: c in configs && Contributes(key, c, k) && c.name == winner)
    && (forall c :: c in configs && Contributes(key, c, k) ==> !Before(winner, c.name))
  }

  /** Each key maps to its winner, and a key nobody contributes maps to nothing. */
  ghost predicate IsIndex<K(!new)>(configs: set<Config>, key: Config -> Option<K>, index: map<K, Name>) {
    && (forall k :: k in index ==> Wins(configs, key, k, index[k]))
    && (forall c, k :: c in configs && Contributes(key, c, k) ==> k in index)
  }

  /** The configurations determine the index, whatever order they are read in. */
  lemma IndexIsUnique<K(!new)>(configs: set<Config>, key: Config -> Option<K>, a: map<K, Name>, b: map<K, Name>)
    requires IsIndex(configs, key, a) && IsIndex(configs, key, b)
    ensures a == b
  {
    forall k | k in a ensures k in b && a[k] == b[k] {
      OneWinner(configs, key, k, a, b);
    }
    forall k | k in b ensures k in a {
      OneWinner(configs, key, k, b, a);
    }
  }

  lemma OneWinner<K(!new)>(configs: set<Config>, key: Config -> Option<K>, k: K, a: map<K, Name>, b: map<K, Name>)
    requires IsIndex(configs, key, a) && IsIndex(configs, key, b) && k in a
    ensures k in b && a[k] == b[k]
  {
    assert Wins(configs, key, k, a[k]);
    var c :| c in configs && Contributes(key, c, k) && c.name == a[k];
    assert k in b && Wins(configs, key, k, b[k]);
    var d :| d in configs && Contributes(key, d, k) && d.name == b[k];
    BeforeIsTotal(a[k], b[k]);
  }

  // ---- the lookups, on the fields of the configurations ----

  /** An enabled `embed` model serves its target, or its own name if it has none. */
  predicate ServesEmbed(c: Config, public: string) {
    && c.enabled && c.modelType == Some("embed")
    && (c.target == Some(public) || (c.target == None && c.name == public))
  }

  /** Any other enabled model that has both ends converts from one to the other. */
  predicate ServesConvert(c: Config, source: string, target: string) {
    c.enabled && c.modelType != Some("embed") && c.source == Some(source) && c.target == Some(target)
  }

  /** What the two lookups answer: the alphabetically last model that serves the request, or nothing. */
  ghost predicate Looks(configs: set<Config>, embed: map<string, Name>, convert: map<(string, string), Name>) {
    && (forall public :: public in embed <==> exists c :: c in configs && ServesEmbed(c, public))
    && (forall public :: public in embed ==>
          && (exists c :: c in configs && ServesEmbed(c, public) && c.name == embed[public])
          && (forall c :: c in configs && ServesEmbed(c, public) ==> !Before(embed[public], c.name)))
    && (forall source, target :: (source, target) in convert <==> exists c :: c in configs && ServesConvert(c, source, target))
    && (forall source, target :: (source, target) in convert ==>
          && (exists c :: c in configs && ServesConvert(c, source, target) && c.name == convert[(source, target)])
          && (forall c :: c in configs && ServesConvert(c, source, target) ==> !Before(convert[(source, target)], c.name)))
  }

  lemma IndexesLook(configs: set<Config>, embed: map<string, Name>, convert: map<(string, string), Name>)
    requires IsIndex(configs, EmbedKey, embed) && IsIndex(configs, ConvertKey, convert)
    ensures Looks(configs, embed, convert)
  {
    hide Before, ServesEmbed, ServesConvert, Contributes, EmbedKey, ConvertKey, Wins;
    forall c: Config, public ensures ServesEmbed(c, public) <==> Contributes(EmbedKey, c, public) { EmbedByFields(c, public); }
    forall c: Config, source, target
      ensures ServesConvert(c, source, target) <==> Contributes(ConvertKey, c, (source, target))
    {
      ConvertByFields(c, source, target);
    }
    forall public | public in embed { WinnerOf(configs, EmbedKey, public, embed[public]); }
    forall source, target | (source, target) in convert {
      WinnerOf(configs, ConvertKey, (source, target), convert[(source, target)]);
    }
  }

  lemma WinnerOf<K(!new)>(configs: set<Config>, key: Config -> Option<K>, k: K, winner: Name)
    requires Wins(configs, key, k, winner)
    ensures exists c :: c in configs && Contributes(key, c, k) && c.name == winner
    ensures forall c :: c in configs && Contributes(key, c, k) ==> !Before(winner, c.name)
  {
  }

  lemma EmbedByFields(c: Config, public: string)
    ensures ServesEmbed(c, public) <==> Contributes(EmbedKey, c, public)
  {
  }

  lemma ConvertByFields(c: Config, source: string, target: string)
    ensures ServesConvert(c, source, target) <==> Contributes(ConvertKey, c, (source, target))
  {
  }

  // ---- rebuilding ----

  predicate SortedByName(cs: seq<Config>) {
    forall i, j :: 0 <= i < j < |cs| ==> !Before(cs[j].name, cs[i].name)
  }

  function Insert(c: Config, cs: seq<Config>): seq<Config> {
    if cs == [] || !Before(cs[0].name, c.name) then [c] + cs else [cs[0]] + Insert(c, cs[1..])
  }

  /** A stable sort by name. */
  function Sort(cs: seq<Config>): (r: seq<Config>) {
    if cs == [] then [] else Insert(cs[0], Sort(cs[1..]))
  }

  lemma {:induction false} InsertSorts(c: Config, cs: seq<Config>)
    requires SortedByName(cs)
    ensures SortedByName(Insert(c, cs)) && multiset(Insert(c, cs)) == multiset{c} + multiset(cs)
  {
    if cs == [] {
    } else if !Before(cs[0].name, c.name) {
      FrontIsLeast(c, cs);
    } else {
      hide Before, SortedByName;
      SortedParts(cs);
      InsertSorts(c, cs[1..]);
      var rest := Insert(c, cs[1..]);
      assert cs == [cs[0]] + cs[1..];
      BeforeIsStrict(cs[0].name, c.name);
      forall d | d in rest ensures !Before(d.name, cs[0].name) {
        assert d in multiset(rest);
      }
      SortedCons(cs[0], rest);
    }
  }

  lemma SortedParts(cs: seq<Config>)
    requires SortedByName(cs) && cs != []
    ensures SortedByName(cs[1..]) && forall d :: d in cs[1..] ==> !Before(d.name, cs[0].name)
  {
    hide Before;
  }

  lemma SortedCons(c: Config, cs: seq<Config>)
    requires SortedByName(cs) && forall d :: d in cs ==> !Before(d.name, c.name)
    ensures SortedByName([c] + cs)
  {
    hide Before;
    var all := [c] + cs;
    forall i, j | 0 <= i < j < |all| ensures !Before(all[j].name, all[i].name) {
      assert all[j] == cs[j - 1];
      if i > 0 { assert all[i] == cs[i - 1]; }
    }
  }

  lemma FrontIsLeast(c: Config, cs: seq<Config>)
    requires SortedByName(cs) && cs != [] && !Before(cs[0].name, c.name)
    ensures SortedByName([c] + cs)
  {
    forall j | 0 <= j < |cs| ensures !Before(cs[j].name, c.name) {
      if Before(cs[j].name, c.name) {
        BeforeIsTotal(cs[0].name, cs[j].name);
        if Before(cs[0].name, cs[j].name) { BeforeIsTransitive(cs[0].name, cs[j].name, c.name); }
      }
    }
  }

  lemma {:induction false} SortSorts(cs: seq<Config>)
    ensures SortedByName(Sort(cs)) && multiset(Sort(cs)) == multiset(cs)
  {
    if cs != [] {
      SortSorts(cs[1..]);
      InsertSorts(cs[0], Sort(cs[1..]));
      assert cs == [cs[0]] + cs[1..];
    }
  }

  /** Inserting the contribution of one more, alphabetically later, configuration. */
  function Put<K(==)>(key: Config -> Option<K>, index: map<K, Name>, c: Config): map<K, Name> {
    if c.enabled && key(c).Some? then index[key(c).value := c.name] else index
  }

  lemma PutKeepsIndex<K(!new)>(configs: set<Config>, key: Config -> Option<K>, index: map<K, Name>, c: Config)
    requires IsIndex(configs, key, index) && forall d :: d in configs ==> !Before(c.name, d.name)
    ensures IsIndex(configs + {c}, key, Put(key, index, c))
  {
    var all, more := configs + {c}, Put(key, index, c);
    BeforeIsStrict(c.name, c.name);
    forall k | k in more ensures Wins(all, key, k, more[k]) {
      if Contributes(key, c, k) {
        assert c in all && c.name == more[k];
      } else {
        assert Wins(configs, key, k, index[k]);
        var d :| d in configs && Contributes(key, d, k) && d.name == index[k];
        assert d in all;
      }
    }
  }

  class ModelResolver {
    var embedIndex: map<string, Name>
    var convertIndex: map<(string, string), Name>

    constructor ()
      ensures embedIndex == map[] && convertIndex == map[]
    {
      embedIndex, convertIndex := map[], map[];
    }

    /** Clear both indexes, sort the configurations and insert them in turn. */
    method Rebuild(models: seq<Config>)
      modifies this
      ensures IsIndex(Elements(models), EmbedKey, embedIndex)
      ensures IsIndex(Elements(models), ConvertKey, convertIndex)
      ensures Looks(Elements(models), embedIndex, convertIndex)
    {
      hide IsIndex, Sort, Before, SortedByName, Looks;
      embedIndex, convertIndex := map[], map[];
      var configs := Sort(models);
      SortSorts(models);
      assert Elements(configs[..0]) == {};
      EmptyIndex(EmbedKey);
      EmptyIndex(ConvertKey);
      assert Elements(configs) == Elements(models) by { SameElements(configs, models); }
      var i := 0;
      while i < |configs|
        invariant 0 <= i <= |configs|
        invariant IsIndex(Elements(configs[..i]), EmbedKey, embedIndex)
        invariant IsIndex(Elements(configs[..i]), ConvertKey, convertIndex)
      {
        var c := configs[i];
        SortedPrefix(configs, i);
        PutKeepsIndex(Elements(configs[..i]), EmbedKey, embedIndex, c);
        PutKeepsIndex(Elements(configs[..i]), ConvertKey, convertIndex, c);
        if c.enabled {
          match (c.modelType, c.source, c.target) {
            case (Some("convert"), Some(src), Some(tgt)) =>
              convertIndex := convertIndex[(src, tgt) := c.name];
            case (Some("embed"), _, _) =>
              var tgt := if c.target.Some? then c.target.value else c.name;
              embedIndex := embedIndex[tgt := c.name];
            case _ =>
              if c.source.Some? && c.target.Some? {
                convertIndex := convertIndex[(c.source.value, c.target.value) := c.name];
              }
          }
        }
        i := i + 1;
      }
      assert configs[..i] == configs;
      IndexesLook(Elements(models), embedIndex, convertIndex);
    }
  }

  lemma EmptyIndex<K(!new)>(key: Config -> Option<K>)
    ensures IsIndex({}, key, map[])
  {
  }

  lemma SortedPrefix(configs: seq<Config>, i: nat)
    requires i < |configs| && SortedByName(configs)
    ensures Elements(configs[..i + 1]) == Elements(configs[..i]) + {configs[i]}
    ensures forall d :: d in Elements(configs[..i]) ==> !Before(configs[i].name, d.name)
  {
    assert configs[..i + 1] == configs[..i] + [configs[i]];
  }

  lemma SameElements(a: seq<Config>, b: seq<Config>)
    requires multiset(a) == multiset(b)
    ensures Elements(a) == Elements(b)
  {
    forall c ensures c in Elements(a) <==> c in Elements(b) {
      assert c in a <==> c in multiset(a);
      assert c in b <==> c in multiset(b);
    }
  }
}

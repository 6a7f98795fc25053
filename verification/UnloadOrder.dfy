/** The order in which an unload request is carried out: dependents before what they
    depend on, whenever the request has such an order at all. */
module UnloadOrder {

  import opened Names

  /** `a` depends directly on `b`; a model's dependency on itself is ignored. */
  predicate DependsOn(deps: map<Name, seq<Name>>, a: Name, b: Name) {
    a != b && a in deps && b in deps[a]
  }

  predicate Blocked(deps: map<Name, seq<Name>>, remaining: seq<Name>, candidate: Name) {
    exists other :: other in remaining && DependsOn(deps, other, candidate)
  }

  /** The names without repetition, each at its first occurrence. */
  function Dedup(names: seq<Name>): (r: seq<Name>) {
    if names == [] then []
    else
      var r := Dedup(names[..|names| - 1]);
      if names[|names| - 1] in r then r else r + [names[|names| - 1]]
  }

  /** First position at or after `i` whose name nothing remaining depends on, else 0. */
  function Pick(deps: map<Name, seq<Name>>, remaining: seq<Name>, i: nat): (k: nat)
    requires i <= |remaining| && remaining != []
    ensures k < |remaining|
    ensures Blocked(deps, remaining, remaining[k]) ==> forall j :: i <= j < |remaining| ==> Blocked(deps, remaining, remaining[j])
    decreases |remaining| - i
  {
    if i == |remaining| then 0
    else if !Blocked(deps, remaining, remaining[i]) then i
    else Pick(deps, remaining, i + 1)
  }

  function Without(s: seq<Name>, k: nat): seq<Name>
    requires k < |s|
  {
    s[..k] + s[k + 1..]
  }

  /** Repeatedly take the picked name out of what remains. */
  function Ordered(deps: map<Name, seq<Name>>, remaining: seq<Name>): (r: seq<Name>)
    decreases |remaining|
  {
    if remaining == [] then []
    else
      var k := Pick(deps, remaining, 0);
      [remaining[k]] + Ordered(deps, Without(remaining, k))
  }

  /** The loop of the admin route. */
  method ReverseDependencyOrder(names: seq<Name>, deps: map<Name, seq<Name>>) returns (ordered: seq<Name>)
    ensures ordered == Ordered(deps, Dedup(names))
  {
    hide Ordered, Blocked, Pick;
    var remaining := [];
    var i := 0;
    while i < |names|
      invariant 0 <= i <= |names| && remaining == Dedup(names[..i])
    {
      assert names[..i + 1][..i] == names[..i];
      if names[i] !in remaining {
        remaining := remaining + [names[i]];
      }
      i := i + 1;
    }
    assert names[..i] == names;
    ordered := [];
    while remaining != []
      invariant ordered + Ordered(deps, remaining) == Ordered(deps, Dedup(names))
      decreases |remaining|
    {
      var next := Pick(deps, remaining, 0);
      TakeNext(deps, remaining, ordered);
      ordered := ordered + [remaining[next]];
      remaining := Without(remaining, next);
    }
    TakeNext(deps, remaining, ordered);
  }

  lemma TakeNext(deps: map<Name, seq<Name>>, remaining: seq<Name>, ordered: seq<Name>)
    ensures ordered + Ordered(deps, remaining) ==
            if remaining == [] then ordered
            else var k := Pick(deps, remaining, 0);
                 ordered + [remaining[k]] + Ordered(deps, Without(remaining, k))
  {
  }

  // ---- a permutation without duplicates ----

  lemma {:induction false} DedupKeeps(names: seq<Name>)
    ensures Distinct(Dedup(names)) && forall n :: n in Dedup(names) <==> n in names
  {
    if names != [] {
      DedupKeeps(names[..|names| - 1]);
      assert names == names[..|names| - 1] + [names[|names| - 1]];
    }
  }

  lemma WithoutKeeps(s: seq<Name>, k: nat)
    requires k < |s| && Distinct(s)
    ensures Distinct(Without(s, k)) && s[k] !in Without(s, k)
    ensures forall n :: n in s <==> n == s[k] || n in Without(s, k)
  {
    assert s == s[..k] + [s[k]] + s[k + 1..];
  }

  lemma {:induction false} OrderedKeeps(deps: map<Name, seq<Name>>, s: seq<Name>)
    requires Distinct(s)
    ensures Distinct(Ordered(deps, s)) && forall n :: n in Ordered(deps, s) <==> n in s
    decreases |s|
  {
    if s != [] {
      var k := Pick(deps, s, 0);
      WithoutKeeps(s, k);
      OrderedKeeps(deps, Without(s, k));
    }
  }

  /** For any dependency map the order lists each requested name exactly once. */
  lemma OrderIsPermutation(names: seq<Name>, deps: map<Name, seq<Name>>)
    ensures var r := Ordered(deps, Dedup(names));
            Distinct(r) && forall n :: n in r <==> n in names
  {
    DedupKeeps(names);
    OrderedKeeps(deps, Dedup(names));
  }

  // ---- dependents first ----

  /** Nothing stands after a name that depends on it. */
  predicate DependentsFirst(deps: map<Name, seq<Name>>, r: seq<Name>) {
    forall i, j :: 0 <= i < j < |r| ==> !DependsOn(deps, r[j], r[i])
  }

  /** A dependency chain through the given names. */
  predicate Chain(deps: map<Name, seq<Name>>, names: seq<Name>, p: seq<Name>) {
    && |p| >= 2
    && (forall i :: 0 <= i < |p| ==> p[i] in names)
    && (forall i :: 0 <= i < |p| - 1 ==> DependsOn(deps, p[i], p[i + 1]))
  }

  ghost predicate Cyclic(deps: map<Name, seq<Name>>, names: seq<Name>) {
    exists p :: Chain(deps, names, p) && p[0] == p[|p| - 1]
  }

  /** In a dependents-first order a chain runs forward. */
  lemma {:induction false} ChainRunsForward(deps: map<Name, seq<Name>>, r: seq<Name>, p: seq<Name>, i: nat, j: nat)
    requires DependentsFirst(deps, r) && Chain(deps, r, p)
    requires i < |r| && r[i] == p[0] && j < |r| && r[j] == p[|p| - 1]
    ensures i < j
    decreases |p|
  {
    var m := |p| - 1;
    assert p[m - 1] in r;
    var k :| 0 <= k < |r| && r[k] == p[m - 1];
    assert DependsOn(deps, p[m - 1], p[m]);
    if m > 1 {
      assert Chain(deps, r, p[..m]);
      ChainRunsForward(deps, r, p[..m], i, k);
    } else if k != i {
      assert r[k] == r[i];
    }
  }

  lemma Blocker(deps: map<Name, seq<Name>>, names: seq<Name>, n: Name) returns (other: Name)
    requires Blocked(deps, names, n)
    ensures other in names && DependsOn(deps, other, n)
  {
    other :| other in names && DependsOn(deps, other, n);
  }

  /** Extend a chain backwards inside names that are all blocked. */
  lemma {:induction false} BackwardChain(deps: map<Name, seq<Name>>, names: seq<Name>, length: nat) returns (p: seq<Name>)
    requires names != [] && length >= 2 && forall n :: n in names ==> Blocked(deps, names, n)
    ensures Chain(deps, names, p) && |p| == length
  {
    hide Blocked, DependsOn;
    if length == 2 {
      var other := Blocker(deps, names, names[0]);
      p := [other, names[0]];
    } else {
      var q := BackwardChain(deps, names, length - 1);
      var other := Blocker(deps, names, q[0]);
      p := [other] + q;
    }
  }

  lemma {:induction false} DistinctIsShort(s: seq<Name>, names: set<Name>)
    requires Distinct(s) && forall n :: n in s ==> n in names
    ensures |s| <= |names|
  {
    if s != [] {
      var init, last := s[..|s| - 1], s[|s| - 1];
      forall n | n in init ensures n in names - {last} {
        var i :| 0 <= i < |init| && init[i] == n;
        assert s[i] != last;
      }
      DistinctIsShort(init, names - {last});
    }
  }

  /** If everything is blocked, the names hold a cycle. */
  lemma AllBlockedIsCyclic(deps: map<Name, seq<Name>>, names: seq<Name>)
    requires names != [] && forall n :: n in names ==> Blocked(deps, names, n)
    ensures Cyclic(deps, names)
  {
    hide Blocked, DependsOn;
    var all := set n | n in names;
    var p := BackwardChain(deps, names, |all| + 2);
    if Distinct(p) {
      DistinctIsShort(p, all);
    }
    hide Chain;
    var i, j :| 0 <= i < j < |p| && p[i] == p[j];
    LoopInChain(deps, names, p, i, j);
  }

  lemma LoopInChain(deps: map<Name, seq<Name>>, names: seq<Name>, p: seq<Name>, i: nat, j: nat)
    requires Chain(deps, names, p) && i < j < |p| && p[i] == p[j]
    ensures Cyclic(deps, names)
  {
    hide DependsOn, Chain;
    var loop := p[i..j + 1];
    forall k | 0 <= k < |loop| ensures Linked(deps, names, loop, k) {
      ChainLinks(deps, names, p, i + k);
      assert loop[k] == p[i + k];
      if k + 1 < |loop| { assert loop[k + 1] == p[i + k + 1]; }
    }
    LinksChain(deps, names, loop);
    assert loop[0] == p[i] && loop[|loop| - 1] == p[j];
  }

  /** The `k`th name is one of those given, and depends on the next. */
  predicate Linked(deps: map<Name, seq<Name>>, names: seq<Name>, p: seq<Name>, k: nat)
    requires k < |p|
  {
    p[k] in names && (k + 1 < |p| ==> DependsOn(deps, p[k], p[k + 1]))
  }

  lemma ChainLinks(deps: map<Name, seq<Name>>, names: seq<Name>, p: seq<Name>, k: nat)
    requires Chain(deps, names, p) && k < |p|
    ensures Linked(deps, names, p, k)
  {
    hide DependsOn;
  }

  lemma LinksChain(deps: map<Name, seq<Name>>, names: seq<Name>, p: seq<Name>)
    requires |p| >= 2 && forall k :: 0 <= k < |p| ==> Linked(deps, names, p, k)
    ensures Chain(deps, names, p)
  {
    hide DependsOn;
    forall k | 0 <= k < |p| - 1 ensures DependsOn(deps, p[k], p[k + 1]) { assert Linked(deps, names, p, k); }
    forall k | 0 <= k < |p| ensures p[k] in names { assert Linked(deps, names, p, k); }
  }

  lemma FewerNamesFewerCycles(deps: map<Name, seq<Name>>, fewer: seq<Name>, names: seq<Name>)
    requires Cyclic(deps, fewer) && forall n :: n in fewer ==> n in names
    ensures Cyclic(deps, names)
  {
    var p :| Chain(deps, fewer, p) && p[0] == p[|p| - 1];
    assert Chain(deps, names, p);
  }

  lemma {:induction false} AcyclicOrders(deps: map<Name, seq<Name>>, s: seq<Name>)
    requires Distinct(s) && !Cyclic(deps, s)
    ensures DependentsFirst(deps, Ordered(deps, s))
    decreases |s|
  {
    if s != [] {
      var k := Pick(deps, s, 0);
      var rest := Without(s, k);
      WithoutKeeps(s, k);
      if Cyclic(deps, rest) { FewerNamesFewerCycles(deps, rest, s); }
      AcyclicOrders(deps, rest);
      OrderedKeeps(deps, rest);
      if Blocked(deps, s, s[k]) { AllBlockedIsCyclic(deps, s); }
      hide Cyclic, DependentsFirst, Blocked, Distinct, Pick;
      FreeFirst(deps, s, s[k], Ordered(deps, rest));
    }
  }

  /** Putting a name nothing depends on in front keeps dependents first. */
  lemma FreeFirst(deps: map<Name, seq<Name>>, s: seq<Name>, n: Name, tail: seq<Name>)
    requires !Blocked(deps, s, n) && DependentsFirst(deps, tail) && forall m :: m in tail ==> m in s
    ensures DependentsFirst(deps, [n] + tail)
  {
    hide DependsOn;
    var all := [n] + tail;
    forall i, j | 0 <= i < j < |all| ensures !DependsOn(deps, all[j], all[i]) {
      assert all[j] == tail[j - 1] && all[j] in s;
      if i > 0 { assert all[i] == tail[i - 1]; }
    }
  }

  /** The order puts every dependent before what it depends on if and only if the
      dependencies among the requested names have no cycle. */
  lemma DependentsFirstIffAcyclic(names: seq<Name>, deps: map<Name, seq<Name>>)
    ensures DependentsFirst(deps, Ordered(deps, Dedup(names))) <==> !Cyclic(deps, names)
  {
    var s, r := Dedup(names), Ordered(deps, Dedup(names));
    OrderIsPermutation(names, deps);
    DedupKeeps(names);
    if !Cyclic(deps, names) {
      if Cyclic(deps, s) { FewerNamesFewerCycles(deps, s, names); }
      AcyclicOrders(deps, s);
    }
    if DependentsFirst(deps, r) && Cyclic(deps, names) {
      FewerNamesFewerCycles(deps, names, r);
      var p :| Chain(deps, r, p) && p[0] == p[|p| - 1];
      var i :| 0 <= i < |r| && r[i] == p[0];
      ChainRunsForward(deps, r, p, i, i);
    }
  }

  /** Transitively too: along any chain through requested names the order runs forward. */
  lemma TransitiveDependentsFirst(names: seq<Name>, deps: map<Name, seq<Name>>, p: seq<Name>)
    requires !Cyclic(deps, names) && Chain(deps, names, p)
    ensures var r := Ordered(deps, Dedup(names));
            forall i, j :: 0 <= i < |r| && 0 <= j < |r| && r[i] == p[0] && r[j] == p[|p| - 1] ==> i < j
  {
    hide Ordered, Dedup, Cyclic;
    var r := Ordered(deps, Dedup(names));
    DependentsFirstIffAcyclic(names, deps);
    OrderIsPermutation(names, deps);
    assert Chain(deps, r, p);
    forall i, j | 0 <= i < |r| && 0 <= j < |r| && r[i] == p[0] && r[j] == p[|p| - 1] ensures i < j {
      ChainRunsForward(deps, r, p, i, j);
    }
  }

  // ---- request order decides between names that may go ----

  /** `a` is first asked for before `b` is. */
  predicate Earlier(names: seq<Name>, a: Name, b: Name) {
    exists i :: 0 <= i < |names| && names[i] == a && b !in names[..i + 1]
  }

  /** Something asked for and not yet taken depends on `n`. */
  predicate Held(deps: map<Name, seq<Name>>, names: seq<Name>, taken: seq<Name>, n: Name) {
    exists other :: other in names && other !in taken && DependsOn(deps, other, n)
  }

  /** `n` is next after `taken`: the first asked for that nothing left depends on; if everything left
      is depended on, the first asked for. */
  ghost predicate NextInTurn(deps: map<Name, seq<Name>>, names: seq<Name>, taken: seq<Name>, n: Name) {
    && n in names && n !in taken
    && (if exists m :: m in names && m !in taken && !Held(deps, names, taken, m)
        then
          && !Held(deps, names, taken, n)
          && forall m :: m in names && m !in taken && Earlier(names, m, n) ==> Held(deps, names, taken, m)
        else forall m :: m in names && m !in taken ==> !Earlier(names, m, n))
  }

  /** Each name of `r`, after `taken` and those before it, is next in turn. */
  ghost predicate TakesTurns(deps: map<Name, seq<Name>>, names: seq<Name>, taken: seq<Name>, r: seq<Name>) {
    forall i :: 0 <= i < |r| ==> NextInTurn(deps, names, taken + r[..i], r[i])
  }

  lemma TakesTurnsCons(deps: map<Name, seq<Name>>, names: seq<Name>, taken: seq<Name>, n: Name, tail: seq<Name>)
    requires NextInTurn(deps, names, taken, n) && TakesTurns(deps, names, taken + [n], tail)
    ensures TakesTurns(deps, names, taken, [n] + tail)
  {
    hide NextInTurn;
    var r := [n] + tail;
    forall i | 0 <= i < |r| ensures NextInTurn(deps, names, taken + r[..i], r[i]) {
      if i == 0 {
        assert taken + r[..0] == taken;
      } else {
        assert NextInTurn(deps, names, taken + [n] + tail[..i - 1], tail[i - 1]);
        assert taken + r[..i] == taken + [n] + tail[..i - 1];
      }
    }
  }

  /** `remaining` is what was asked for and is not taken, in request order. */
  ghost predicate Left(names: seq<Name>, taken: seq<Name>, remaining: seq<Name>) {
    && Distinct(remaining)
    && (forall n :: n in remaining <==> n in names && n !in taken)
    && (forall i, j :: 0 <= i < j < |remaining| ==> Earlier(names, remaining[i], remaining[j]))
  }

  lemma EarlierIsStrict(names: seq<Name>, a: Name, b: Name)
    requires Earlier(names, a, b)
    ensures a != b && !Earlier(names, b, a)
  {
    var i :| 0 <= i < |names| && names[i] == a && b !in names[..i + 1];
    assert names[..i + 1][i] == a;
    assert forall j :: 0 <= j <= i ==> names[..i + 1][j] == names[j];
    forall j | 0 <= j < |names| && names[j] == b ensures a in names[..j + 1] {
      assert names[..j + 1][i] == a;
    }
  }

  lemma EarlierLonger(names: seq<Name>, last: Name, a: Name, b: Name)
    requires Earlier(names, a, b)
    ensures Earlier(names + [last], a, b)
  {
    var i :| 0 <= i < |names| && names[i] == a && b !in names[..i + 1];
    assert (names + [last])[..i + 1] == names[..i + 1] && (names + [last])[i] == a;
  }

  lemma EarlierThanNew(names: seq<Name>, last: Name, a: Name)
    requires a in names && last !in names
    ensures Earlier(names + [last], a, last)
  {
    var i :| 0 <= i < |names| && names[i] == a;
    assert (names + [last])[..i + 1] == names[..i + 1] && (names + [last])[i] == a;
  }

  lemma {:induction false} DedupKeepsOrder(names: seq<Name>)
    ensures Left(names, [], Dedup(names))
  {
    DedupKeeps(names);
    if names != [] {
      var init, last := names[..|names| - 1], names[|names| - 1];
      var before, r := Dedup(init), Dedup(names);
      assert init + [last] == names;
      DedupKeepsOrder(init);
      DedupKeeps(init);
      hide Dedup, Earlier, Distinct;
      forall i, j | 0 <= i < j < |r| ensures Earlier(names, r[i], r[j]) {
        assert r[i] == before[i] && before[i] in init;
        if j < |before| {
          EarlierLonger(init, last, before[i], before[j]);
        } else {
          EarlierThanNew(init, last, before[i]);
        }
      }
    }
  }

  /** The name picked is the first that is free; with none free, the first. */
  lemma {:induction false} PickIsFirst(deps: map<Name, seq<Name>>, remaining: seq<Name>, i: nat)
    requires i <= |remaining| && remaining != []
    requires forall j :: 0 <= j < i ==> Blocked(deps, remaining, remaining[j])
    ensures var k := Pick(deps, remaining, i);
            if Blocked(deps, remaining, remaining[k])
            then k == 0 && forall j :: 0 <= j < |remaining| ==> Blocked(deps, remaining, remaining[j])
            else forall j :: 0 <= j < k ==> Blocked(deps, remaining, remaining[j])
    decreases |remaining| - i
  {
    hide Blocked;
    if i < |remaining| && Blocked(deps, remaining, remaining[i]) { PickIsFirst(deps, remaining, i + 1); }
  }

  lemma PickIsNext(deps: map<Name, seq<Name>>, names: seq<Name>, taken: seq<Name>, remaining: seq<Name>)
    requires Left(names, taken, remaining) && remaining != []
    ensures NextInTurn(deps, names, taken, remaining[Pick(deps, remaining, 0)])
  {
    var k := Pick(deps, remaining, 0);
    PickIsFirst(deps, remaining, 0);
    hide Pick, Blocked, Held, Earlier, Left;
    if Blocked(deps, remaining, remaining[k]) {
      AllHeld(deps, names, taken, remaining);
    } else {
      FreeIsNext(deps, names, taken, remaining, k);
    }
  }

  /** A name asked for earlier stands before in what remains. */
  lemma StandsBefore(names: seq<Name>, taken: seq<Name>, remaining: seq<Name>, k: nat, m: Name) returns (j: nat)
    requires Left(names, taken, remaining) && k < |remaining|
    requires m in names && m !in taken && Earlier(names, m, remaining[k])
    ensures j < k && remaining[j] == m
  {
    hide Earlier, Distinct;
    assert m in remaining;
    j :| 0 <= j < |remaining| && remaining[j] == m;
    EarlierIsStrict(names, m, remaining[k]);
    assert !(k < j);
  }

  lemma AllHeld(deps: map<Name, seq<Name>>, names: seq<Name>, taken: seq<Name>, remaining: seq<Name>)
    requires Left(names, taken, remaining) && remaining != []
    requires forall j :: 0 <= j < |remaining| ==> Blocked(deps, remaining, remaining[j])
    ensures NextInTurn(deps, names, taken, remaining[0])
  {
    hide Blocked, Held, Earlier, Distinct;
    forall m | m in names && m !in taken ensures Held(deps, names, taken, m) && !Earlier(names, m, remaining[0]) {
      HeldIsBlocked(deps, names, taken, remaining, m);
      assert m in remaining;
      if Earlier(names, m, remaining[0]) { var _ := StandsBefore(names, taken, remaining, 0, m); }
    }
    assert remaining[0] in remaining;
  }

  lemma FreeIsNext(deps: map<Name, seq<Name>>, names: seq<Name>, taken: seq<Name>, remaining: seq<Name>, k: nat)
    requires Left(names, taken, remaining) && k < |remaining| && !Blocked(deps, remaining, remaining[k])
    requires forall j :: 0 <= j < k ==> Blocked(deps, remaining, remaining[j])
    ensures NextInTurn(deps, names, taken, remaining[k])
  {
    hide Blocked, Held, Earlier, Distinct;
    var n := remaining[k];
    HeldIsBlocked(deps, names, taken, remaining, n);
    assert n in remaining;
    forall m | m in names && m !in taken && Earlier(names, m, n) ensures Held(deps, names, taken, m) {
      var j := StandsBefore(names, taken, remaining, k, m);
      HeldIsBlocked(deps, names, taken, remaining, m);
    }
  }

  lemma HeldIsBlocked(deps: map<Name, seq<Name>>, names: seq<Name>, taken: seq<Name>, remaining: seq<Name>, m: Name)
    requires Left(names, taken, remaining)
    ensures Held(deps, names, taken, m) <==> Blocked(deps, remaining, m)
  {
    hide DependsOn, Earlier, Distinct;
    if Held(deps, names, taken, m) {
      var other :| other in names && other !in taken && DependsOn(deps, other, m);
      assert other in remaining;
    }
    if Blocked(deps, remaining, m) {
      var other :| other in remaining && DependsOn(deps, other, m);
      assert other in names && other !in taken;
    }
  }

  lemma LeftAfter(names: seq<Name>, taken: seq<Name>, remaining: seq<Name>, k: nat)
    requires Left(names, taken, remaining) && k < |remaining|
    ensures Left(names, taken + [remaining[k]], Without(remaining, k))
  {
    hide Earlier;
    WithoutKeeps(remaining, k);
    var rest := Without(remaining, k);
    forall i, j | 0 <= i < j < |rest| ensures Earlier(names, rest[i], rest[j]) {
      var p, q := if i < k then i else i + 1, if j < k then j else j + 1;
      assert rest[i] == remaining[p] && rest[j] == remaining[q];
    }
  }

  lemma {:induction false} OrderedTakesTurns(deps: map<Name, seq<Name>>, names: seq<Name>, taken: seq<Name>, remaining: seq<Name>)
    requires Left(names, taken, remaining)
    ensures TakesTurns(deps, names, taken, Ordered(deps, remaining))
    decreases |remaining|
  {
    hide Left, TakesTurns, NextInTurn, Pick;
    if remaining == [] {
      NoTurns(deps, names, taken);
    } else {
      var k := Pick(deps, remaining, 0);
      PickIsNext(deps, names, taken, remaining);
      LeftAfter(names, taken, remaining, k);
      OrderedTakesTurns(deps, names, taken + [remaining[k]], Without(remaining, k));
      TakesTurnsCons(deps, names, taken, remaining[k], Ordered(deps, Without(remaining, k)));
    }
  }

  lemma NoTurns(deps: map<Name, seq<Name>>, names: seq<Name>, taken: seq<Name>)
    ensures TakesTurns(deps, names, taken, [])
  {
  }

  /** At every point the name unloaded next is the first asked for that nothing left depends on, and
      inside a cycle the first asked for. */
  lemma UnloadsInTurn(names: seq<Name>, deps: map<Name, seq<Name>>)
    ensures TakesTurns(deps, names, [], Ordered(deps, Dedup(names)))
  {
    hide TakesTurns, Left, Ordered, Dedup;
    DedupKeepsOrder(names);
    OrderedTakesTurns(deps, names, [], Dedup(names));
  }
}

/** Routes through the dependency graph, in the order a depth-first walk tries them. */
module ModelRoutes {
  import opened Names
  import opened ModelStore

  /** Which root, then which dependency of each name on the way. */
  type Route = seq<nat>

  function Target(index: Index, roots: seq<Name>, k: Route): Option<Name> {
    if k == [] then None
    else
      var last, before := k[|k| - 1], Target(index, roots, k[..|k| - 1]);
      var choices := if |k| == 1 then roots else if before.Some? then Deps(index, before.value) else [];
      if last < |choices| then Some(choices[last]) else None
  }

  predicate Leads(index: Index, roots: seq<Name>, k: Route, n: Name) { Target(index, roots, k) == Some(n) }

  /** The routes part, and `a` takes the earlier choice. */
  predicate PartsLeft(a: Route, b: Route) {
    exists j :: 0 <= j < |a| && j < |b| && a[..j] == b[..j] && a[j] < b[j]
  }

  /** A walk tries `a` before `b`: a route before its extensions, and earlier choices first. */
  predicate Earlier(a: Route, b: Route) { (a <= b && a != b) || PartsLeft(a, b) }

  /** The first route a walk could take to `n`. */
  ghost predicate FirstRoute(index: Index, roots: seq<Name>, k: Route, n: Name) {
    Leads(index, roots, k, n) && forall other :: Leads(index, roots, other, n) ==> !Earlier(other, k)
  }

  lemma {:induction false} EarlierIsTotal(a: Route, b: Route)
    ensures a == b || Earlier(a, b) || Earlier(b, a)
  {
    if a != [] && b != [] && a[0] == b[0] {
      EarlierIsTotal(a[1..], b[1..]);
      if a[1..] == b[1..] {
        assert a == [a[0]] + a[1..] && b == [b[0]] + b[1..];
      } else if Earlier(a[1..], b[1..]) {
        EarlierBehind(a, b);
      } else {
        EarlierBehind(b, a);
      }
    } else if a != [] && b != [] {
      assert a[..0] == b[..0];
    }
  }

  lemma EarlierBehind(a: Route, b: Route)
    requires a != [] && b != [] && a[0] == b[0] && Earlier(a[1..], b[1..])
    ensures Earlier(a, b)
  {
    if PartsLeft(a[1..], b[1..]) {
      var j :| 0 <= j < |a[1..]| && j < |b[1..]| && a[1..][..j] == b[1..][..j] && a[1..][j] < b[1..][j];
      assert a[..j + 1] == [a[0]] + a[1..][..j] && b[..j + 1] == [b[0]] + b[1..][..j];
    } else {
      assert a == [a[0]] + a[1..] && b == [b[0]] + b[1..];
    }
  }

  lemma FirstRouteIsUnique(index: Index, roots: seq<Name>, a: Route, b: Route, n: Name)
    requires FirstRoute(index, roots, a, n) && FirstRoute(index, roots, b, n)
    ensures a == b
  {
    EarlierIsTotal(a, b);
  }

  /** A route is a chain of dependencies of the same length. */
  lemma {:induction false} RouteIsPath(index: Index, roots: seq<Name>, k: Route, n: Name) returns (p: seq<Name>)
    requires Leads(index, roots, k, n)
    ensures PathFrom(index, roots, p) && |p| == |k| && p[|p| - 1] == n
  {
    if |k| == 1 {
      p := [n];
    } else {
      var m := Target(index, roots, k[..|k| - 1]).value;
      var before := RouteIsPath(index, roots, k[..|k| - 1], m);
      p := before + [n];
      PathExtends(index, before, n);
    }
  }

  // ---- what a walk has behind it ----

  ghost predicate Closed(index: Index, planned: set<Name>) {
    forall n, d :: n in planned && d in Deps(index, n) ==> d in planned
  }

  /** Every choice to the left of `here` leads to a planned name. */
  ghost predicate LeftPlanned(index: Index, roots: seq<Name>, here: Route, planned: set<Name>) {
    forall j, i, n :: 0 <= j < |here| && 0 <= i < here[j] && Leads(index, roots, here[..j] + [i], n) ==> n in planned
  }

  /** `here` leads down the stack. */
  ghost predicate Along(index: Index, roots: seq<Name>, here: Route, stack: seq<Name>) {
    |here| == |stack| && forall j :: 0 <= j < |here| ==> Leads(index, roots, here[..j + 1], stack[j])
  }

  lemma {:induction false} ClosedAlong(index: Index, roots: seq<Name>, k: Route, j: nat, planned: set<Name>)
    requires Closed(index, planned) && 1 <= j <= |k| && Target(index, roots, k).Some?
    requires forall m :: Leads(index, roots, k[..j], m) ==> m in planned
    ensures Target(index, roots, k).value in planned
  {
    if j == |k| {
      assert k[..j] == k;
    } else {
      var init := k[..|k| - 1];
      assert init[..j] == k[..j];
      ClosedAlong(index, roots, init, j, planned);
    }
  }

  /** A name met for the first time, neither planned nor on the stack, is met by its first route. */
  lemma DiscoveryIsFirst(index: Index, roots: seq<Name>, here: Route, stack: seq<Name>, planned: set<Name>)
    requires here != [] && Along(index, roots, here, stack) && LeftPlanned(index, roots, here, planned) && Closed(index, planned)
    requires stack[|stack| - 1] !in planned && stack[|stack| - 1] !in stack[..|stack| - 1]
    ensures FirstRoute(index, roots, here, stack[|stack| - 1])
  {
    var n := stack[|stack| - 1];
    assert here[..|here|] == here && Leads(index, roots, here[..|here| - 1 + 1], stack[|here| - 1]);
    forall other | Leads(index, roots, other, n) ensures !Earlier(other, here) {
      NotEarlier(index, roots, here, stack, planned, other);
    }
  }

  lemma NotEarlier(index: Index, roots: seq<Name>, here: Route, stack: seq<Name>, planned: set<Name>, other: Route)
    requires here != [] && Along(index, roots, here, stack) && LeftPlanned(index, roots, here, planned) && Closed(index, planned)
    requires stack[|stack| - 1] !in planned && stack[|stack| - 1] !in stack[..|stack| - 1]
    requires Leads(index, roots, other, stack[|stack| - 1])
    ensures !Earlier(other, here)
  {
    var n := stack[|stack| - 1];
    forall j | 0 <= j < |other| && j < |here| && other[..j] == here[..j] ensures !(other[j] < here[j]) {
      if other[j] < here[j] {
        assert other[..j + 1] == here[..j] + [other[j]];
        ClosedAlong(index, roots, other, j + 1, planned);
      }
    }
    if other <= here { PrefixIsWhole(index, roots, here, stack, other); }
  }

  lemma PrefixIsWhole(index: Index, roots: seq<Name>, here: Route, stack: seq<Name>, other: Route)
    requires Along(index, roots, here, stack) && stack != [] && stack[|stack| - 1] !in stack[..|stack| - 1]
    requires Leads(index, roots, other, stack[|stack| - 1]) && other <= here
    ensures other == here
  {
    var j := |other| - 1;
    assert here[..j + 1] == other && Leads(index, roots, here[..j + 1], stack[j]);
  }

  lemma LeftOfChild(index: Index, roots: seq<Name>, here: Route, stack: seq<Name>, planned: set<Name>, deps: seq<Name>, k: nat)
    requires here != [] && Along(index, roots, here, stack) && LeftPlanned(index, roots, here, planned)
    requires deps == Deps(index, stack[|stack| - 1]) && k < |deps| && forall i :: 0 <= i < k ==> deps[i] in planned
    ensures LeftPlanned(index, roots, here + [k], planned)
    ensures Along(index, roots, here + [k], stack + [deps[k]])
  {
    var child, last := here + [k], stack[|stack| - 1];
    assert here[..|here|] == here && Leads(index, roots, here[..|here| - 1 + 1], last);
    forall j, i, n | 0 <= j < |child| && 0 <= i < child[j] && Leads(index, roots, child[..j] + [i], n) ensures n in planned {
      if j < |here| {
        assert child[..j] == here[..j];
      } else {
        assert child[..j] == here && (here + [i])[..|here|] == here;
      }
    }
    forall j | 0 <= j < |child| ensures Leads(index, roots, child[..j + 1], (stack + [deps[k]])[j]) {
      if j < |here| { assert child[..j + 1] == here[..j + 1]; } else { assert child[..j + 1] == child && child[..|here|] == here; }
    }
  }

  lemma LeftGrows(index: Index, roots: seq<Name>, here: Route, planned: set<Name>, more: set<Name>)
    requires LeftPlanned(index, roots, here, planned) && planned <= more
    ensures LeftPlanned(index, roots, here, more)
  {
  }

  lemma LeftOfRoot(index: Index, roots: seq<Name>, i: nat, planned: set<Name>)
    requires i < |roots| && forall j :: 0 <= j < i ==> roots[j] in planned
    ensures LeftPlanned(index, roots, [i], planned) && Along(index, roots, [i], [roots[i]])
  {
    forall j, c, n | 0 <= j < 1 && 0 <= c < [i][j] && Leads(index, roots, [i][..j] + [c], n) ensures n in planned {
      assert [i][..j] + [c] == [c];
    }
    assert [i][..0 + 1] == [i];
  }

  lemma OrderIsClosed(index: Index, order: seq<Name>, planned: set<Name>)
    requires LoadOrder(index, order) && forall n :: n in order <==> n in planned
    ensures Closed(index, planned)
  {
    forall n, d | n in planned && d in Deps(index, n) ensures d in planned {
      var i :| 0 <= i < |order| && order[i] == n;
      assert d in order[..i];
    }
  }

  // ---- a list that names dependencies first ----

  /** Roots that are themselves in load order are all first met as roots, however deep they run. */
  lemma LoadOrderIsFlat(index: Index, roots: seq<Name>, k: Route, n: Name)
    requires LoadOrder(index, roots) && FirstRoute(index, roots, k, n)
    ensures |k| == 1
  {
    RouteStarts(index, roots, k);
    var i := StartsAt(index, roots, k, n);
    assert Leads(index, roots, [i], n);
    assert i < k[0] ==> [i][..0] == k[..0] && PartsLeft([i], k);
  }

  lemma {:induction false} RouteStarts(index: Index, roots: seq<Name>, k: Route)
    requires Target(index, roots, k).Some?
    ensures k != [] && k[0] < |roots| && Leads(index, roots, k[..1], roots[k[0]])
  {
    if |k| == 1 {
      assert k[..1] == k;
    } else {
      RouteStarts(index, roots, k[..|k| - 1]);
      assert k[..|k| - 1][..1] == k[..1];
    }
  }

  /** Following dependencies from one of the roots moves strictly towards the front of the list. */
  lemma {:induction false} StartsAt(index: Index, roots: seq<Name>, k: Route, n: Name) returns (i: nat)
    requires LoadOrder(index, roots) && Leads(index, roots, k, n) && k != [] && k[0] < |roots|
    ensures i <= k[0] && roots[i] == n && (|k| > 1 ==> i < k[0])
  {
    if |k| == 1 {
      i := k[0];
    } else {
      var m := Target(index, roots, k[..|k| - 1]).value;
      var before := StartsAt(index, roots, k[..|k| - 1], m);
      assert n in Deps(index, roots[before]) && n in roots[..before];
      i :| 0 <= i < before && roots[i] == n;
    }
  }
}

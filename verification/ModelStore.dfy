/** The on-disk model store as the preflight sees it, and its dependency graph. */
module ModelStore {

  import opened Names

  /** Admission facts of one descriptor file. */
  datatype Descriptor = Descriptor(name: Name, enabled: bool, dependencies: seq<Name>)

  /** What reading one descriptor path yields. */
  datatype Read = Readable(descriptor: Descriptor) | Unreadable

  /** Model name to its descriptor path or paths, each with what it holds. */
  type Index = map<Name, seq<Read>>

  /** Exactly one readable descriptor, naming the directory it sits in. */
  predicate Resolvable(index: Index, n: Name) {
    n in index && |index[n]| == 1 && index[n][0].Readable? && index[n][0].descriptor.name == n
  }

  /** The one descriptor of `n` can be read and lists `d`. */
  predicate Lists(index: Index, n: Name, d: Name) {
    n in index && |index[n]| == 1 && index[n][0].Readable? && d in index[n][0].descriptor.dependencies
  }

  predicate Enabled(index: Index, n: Name) {
    Resolvable(index, n) && index[n][0].descriptor.enabled
  }

  function Deps(index: Index, n: Name): seq<Name> {
    if Resolvable(index, n) then index[n][0].descriptor.dependencies else []
  }

  /** Each name depends directly on the next. */
  predicate IsPath(index: Index, p: seq<Name>) {
    p != [] && forall i :: 0 <= i < |p| - 1 ==> p[i + 1] in Deps(index, p[i])
  }

  ghost predicate PathFrom(index: Index, roots: seq<Name>, p: seq<Name>) {
    IsPath(index, p) && p[0] in roots
  }

  ghost predicate Reachable(index: Index, roots: seq<Name>, n: Name) {
    exists p :: PathFrom(index, roots, p) && p[|p| - 1] == n
  }

  ghost predicate OnCycle(index: Index, n: Name) {
    exists p :: IsPath(index, p) && |p| >= 2 && p[0] == n && p[|p| - 1] == n
  }

  lemma PathExtends(index: Index, p: seq<Name>, n: Name)
    requires IsPath(index, p) && n in Deps(index, p[|p| - 1])
    ensures IsPath(index, p + [n])
  {
  }

  lemma PathPrefix(index: Index, roots: seq<Name>, p: seq<Name>, k: nat)
    requires PathFrom(index, roots, p) && k < |p|
    ensures Reachable(index, roots, p[k])
  {
    assert PathFrom(index, roots, p[..k + 1]) && p[..k + 1][k] == p[k];
  }

  lemma {:induction false} FewerRootsReachLess(index: Index, fewer: seq<Name>, roots: seq<Name>, n: Name)
    requires Reachable(index, fewer, n) && forall r :: r in fewer ==> r in roots
    ensures Reachable(index, roots, n)
  {
    var p :| PathFrom(index, fewer, p) && p[|p| - 1] == n;
    assert PathFrom(index, roots, p);
  }

  // ---- dependency orders ----

  /** Every name resolves, and all it depends on stands before it. */
  ghost predicate LoadOrder(index: Index, order: seq<Name>) {
    && (forall i :: 0 <= i < |order| ==> Resolvable(index, order[i]))
    && (forall i, d :: 0 <= i < |order| && d in Deps(index, order[i]) ==> d in order[..i])
  }

  lemma LoadOrderExtends(index: Index, order: seq<Name>, n: Name)
    requires LoadOrder(index, order) && Resolvable(index, n) && forall d :: d in Deps(index, n) ==> d in order
    ensures LoadOrder(index, order + [n])
  {
    var more := order + [n];
    forall i, d | 0 <= i < |more| && d in Deps(index, more[i]) ensures d in more[..i] {
      assert i < |order| ==> more[..i] == order[..i];
      assert i == |order| ==> more[..i] == order;
    }
  }

  /** A path that starts in a load order stays in it and moves strictly towards its front. */
  lemma {:induction false} PathDescends(index: Index, order: seq<Name>, i: nat, p: seq<Name>) returns (j: nat)
    requires LoadOrder(index, order) && i < |order| && IsPath(index, p) && p[0] == order[i]
    ensures j + |p| - 1 <= i && order[j] == p[|p| - 1]
    decreases |p|
  {
    if |p| == 1 {
      j := i;
    } else {
      assert p[1] in order[..i];
      var k :| 0 <= k < i && order[k] == p[1];
      assert IsPath(index, p[1..]);
      j := PathDescends(index, order, k, p[1..]);
    }
  }

  /** Nothing in a load order without repetition lies on a cycle. */
  lemma OrderAcyclic(index: Index, order: seq<Name>, n: Name)
    requires LoadOrder(index, order) && Distinct(order) && n in order
    ensures !OnCycle(index, n)
  {
    if OnCycle(index, n) {
      var p :| IsPath(index, p) && |p| >= 2 && p[0] == n && p[|p| - 1] == n;
      var i :| 0 <= i < |order| && order[i] == n;
      var j := PathDescends(index, order, i, p);
    }
  }

  /** A load order that holds the roots holds everything they reach. */
  lemma OrderHoldsReachable(index: Index, order: seq<Name>, roots: seq<Name>, n: Name)
    requires LoadOrder(index, order) && (forall r :: r in roots ==> r in order) && Reachable(index, roots, n)
    ensures n in order
  {
    var p :| PathFrom(index, roots, p) && p[|p| - 1] == n;
    var i :| 0 <= i < |order| && order[i] == p[0];
    var j := PathDescends(index, order, i, p);
  }
}

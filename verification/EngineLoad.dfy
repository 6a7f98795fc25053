/** What the engine's recursive load of one name does: it loads exactly what the name needs beyond what
    is resident, if and only if all of that works. */
module EngineLoad {
  import opened Names
  import opened ModelStore

  /** Names whose descriptor cannot be read, and names whose template or executor cannot be built, while
      one load runs. */
  datatype Faults = Faults(read: set<Name>, build: set<Name>)

  predicate Works(index: Index, faults: Faults, n: Name) {
    Enabled(index, n) && n !in faults.read && n !in faults.build
  }

  /** A dependency path from `name` that meets nothing resident. */
  predicate NeedPath(index: Index, resident: set<Name>, name: Name, p: seq<Name>) {
    IsPath(index, p) && p[0] == name && forall i :: 0 <= i < |p| ==> p[i] !in resident
  }

  /** Loading `name` has to load `n`. */
  ghost predicate Needs(index: Index, resident: set<Name>, name: Name, n: Name) {
    exists p :: NeedPath(index, resident, name, p) && p[|p| - 1] == n
  }

  ghost predicate AllWorks(index: Index, faults: Faults, resident: set<Name>, name: Name) {
    forall n :: Needs(index, resident, name, n) ==> Works(index, faults, n)
  }

  /** What was added works, was needed, and has all its dependencies resident. */
  ghost predicate Grown(index: Index, faults: Faults, before: set<Name>, name: Name, after: set<Name>) {
    && before <= after
    && (forall n :: n in after - before ==> Works(index, faults, n) && Needs(index, before, name, n))
    && (forall n, d :: n in after - before && d in Deps(index, n) ==> d in after)
  }

  /** Loading `name` over `before` answers `ok` and leaves `after`. */
  ghost predicate EngineLoads(index: Index, faults: Faults, before: set<Name>, name: Name, ok: bool, after: set<Name>) {
    && Grown(index, faults, before, name, after)
    && (ok <==> name in after)
    && (ok <==> AllWorks(index, faults, before, name))
    && (ok ==> forall n :: n in after <==> n in before || Needs(index, before, name, n))
  }

  lemma NeedsItself(index: Index, resident: set<Name>, name: Name)
    requires name !in resident
    ensures Needs(index, resident, name, name)
  {
    assert NeedPath(index, resident, name, [name]);
  }

  /** A dependency needs, over more that is resident, only what the dependent needs. */
  lemma NeedsThrough(index: Index, fewer: set<Name>, resident: set<Name>, name: Name, d: Name, n: Name)
    requires fewer <= resident && name !in fewer && d in Deps(index, name) && Needs(index, resident, d, n)
    ensures Needs(index, fewer, name, n)
  {
    hide Deps;
    var p := PathOfNeed(index, resident, d, n);
    PathFront(index, name, p);
    var q := [name] + p;
    hide IsPath;
    assert NeedPath(index, fewer, name, q);
  }

  lemma PathFront(index: Index, name: Name, p: seq<Name>)
    requires IsPath(index, p) && p[0] in Deps(index, name)
    ensures IsPath(index, [name] + p)
  {
    hide Deps;
    var q := [name] + p;
    forall i | 0 <= i < |q| - 1 ensures q[i + 1] in Deps(index, q[i]) {
      if i > 0 { assert p[i - 1 + 1] in Deps(index, p[i - 1]); }
    }
  }

  /** Nothing is needed for what is already resident. */
  lemma ResidentNeedsNothing(index: Index, resident: set<Name>, name: Name, n: Name)
    requires name in resident
    ensures !Needs(index, resident, name, n)
  {
  }

  /** A path that meets nothing resident before stays inside what is closed over it. */
  lemma {:induction false} PathStays(index: Index, before: set<Name>, after: set<Name>, p: seq<Name>, k: nat)
    requires IsPath(index, p) && k < |p| && p[0] in after - before && forall i :: 0 <= i < |p| ==> p[i] !in before
    requires forall n, d :: n in after - before && d in Deps(index, n) ==> d in after
    ensures p[k] in after
    decreases k
  {
    hide Deps;
    if k > 0 {
      PathStays(index, before, after, p, k - 1);
      assert p[k - 1 + 1] in Deps(index, p[k - 1]);
    }
  }

  /** With every dependency of `name` resident, all `name` needs but itself is. */
  lemma NeededIsResident(index: Index, faults: Faults, before: set<Name>, name: Name, after: set<Name>, n: Name)
    requires Grown(index, faults, before, name, after) && (forall d :: d in Deps(index, name) ==> d in after)
    requires Needs(index, before, name, n) && n != name
    ensures n in after - before
  {
    hide Deps, Works, Needs;
    var p := PathOfNeed(index, before, name, n);
    var q := p[1..];
    assert p[0 + 1] in Deps(index, p[0]);
    forall i | 0 <= i < |q| - 1 ensures q[i + 1] in Deps(index, q[i]) {
      assert p[i + 1 + 1] in Deps(index, p[i + 1]);
    }
    PathStays(index, before, after, q, |q| - 1);
  }

  lemma PathOfNeed(index: Index, resident: set<Name>, name: Name, n: Name) returns (p: seq<Name>)
    requires Needs(index, resident, name, n)
    ensures NeedPath(index, resident, name, p) && p[|p| - 1] == n
  {
    p :| NeedPath(index, resident, name, p) && p[|p| - 1] == n;
  }

  // ---- the cases of the load ----

  lemma AlreadyThere(index: Index, faults: Faults, resident: set<Name>, name: Name)
    requires name in resident
    ensures EngineLoads(index, faults, resident, name, true, resident)
  {
    hide Needs, Works;
    forall n ensures !Needs(index, resident, name, n) { ResidentNeedsNothing(index, resident, name, n); }
  }

  lemma NothingGrown(index: Index, faults: Faults, resident: set<Name>, name: Name)
    ensures Grown(index, faults, resident, name, resident)
  {
  }

  /** Something needed does not work: the load fails with `name` not resident. */
  lemma LoadFails(index: Index, faults: Faults, before: set<Name>, name: Name, after: set<Name>, broken: Name)
    requires Grown(index, faults, before, name, after) && name !in after
    requires Needs(index, before, name, broken) && !Works(index, faults, broken)
    ensures EngineLoads(index, faults, before, name, false, after)
  {
    hide Needs, Works, Grown;
  }

  lemma BrokenBelow(index: Index, faults: Faults, before: set<Name>, name: Name, d: Name, middle: set<Name>) returns (broken: Name)
    requires before <= middle && name !in before && d in Deps(index, name) && !AllWorks(index, faults, middle, d)
    ensures Needs(index, before, name, broken) && !Works(index, faults, broken)
  {
    hide Needs, Works, Deps;
    broken :| Needs(index, middle, d, broken) && !Works(index, faults, broken);
    NeedsThrough(index, before, middle, name, d, broken);
  }

  lemma GrownThrough(index: Index, faults: Faults, before: set<Name>, name: Name, middle: set<Name>, d: Name, after: set<Name>)
    requires Grown(index, faults, before, name, middle) && Grown(index, faults, middle, d, after)
    requires name !in before && d in Deps(index, name)
    ensures Grown(index, faults, before, name, after)
  {
    hide Needs, Works, Deps;
    forall n | n in after - before ensures Works(index, faults, n) && Needs(index, before, name, n) {
      if n !in middle { NeedsThrough(index, before, middle, name, d, n); }
    }
  }

  /** Every dependency is resident and `name` works: it joins, and that is all that was needed. */
  lemma LoadSucceeds(index: Index, faults: Faults, before: set<Name>, name: Name, middle: set<Name>)
    requires Grown(index, faults, before, name, middle) && name !in middle && Works(index, faults, name)
    requires forall d :: d in Deps(index, name) ==> d in middle
    ensures EngineLoads(index, faults, before, name, true, middle + {name})
  {
    hide Needs, Works, Deps;
    NeedsItself(index, before, name);
    forall n | Needs(index, before, name, n) ensures n in middle + {name} && Works(index, faults, n) {
      if n != name { NeededIsResident(index, faults, before, name, middle, n); }
    }
    forall n | n in middle && n !in before ensures Needs(index, before, name, n) {
      assert n in middle - before;
    }
    PathsAvoid(index, before, name);
  }

  lemma PathsAvoid(index: Index, resident: set<Name>, name: Name)
    ensures forall n :: Needs(index, resident, name, n) ==> n !in resident
  {
    forall n | Needs(index, resident, name, n) ensures n !in resident {
      var p := PathOfNeed(index, resident, name, n);
    }
  }
}

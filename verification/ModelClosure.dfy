/** The dependency-closure preflight: a memoised depth-first walk with a stack set, a
    depth bound and a resident ceiling checked mid-walk. */
module ModelClosure {
  import opened Names
  import opened ModelStore
  import opened ModelRoutes

  /** Longest dependency chain, in edges. */
  const MAX_DEPENDENCY_DEPTH: nat := 32

  datatype ClosureError =
    | DepthExceeded(name: Name)
    | Cycle(name: Name)
    | CeilingExceeded(name: Name)
    | Missing(name: Name)
    | Ambiguous(name: Name)
    | UnreadableDescriptor(name: Name)
    | NameMismatch(name: Name, found: Name)
    | Deactivated(name: Name)

  datatype Closure = Closure(planned: set<Name>, disabled: set<Name>)

  datatype Outcome<T> = Ok(value: T) | Err(error: ClosureError)

  // ---- what an outcome claims about the graph ----

  function Disabled(index: Index, names: set<Name>): set<Name> {
    set n | n in names && !Enabled(index, n)
  }

  /** More distinct names than `ceiling` are reachable. */
  ghost predicate Crowded(index: Index, roots: seq<Name>, ceiling: nat) {
    exists names: set<Name> :: AllReachable(index, roots, names) && |names| > ceiling
  }

  ghost predicate AllReachable(index: Index, roots: seq<Name>, names: set<Name>) {
    forall n :: n in names ==> Reachable(index, roots, n)
  }

  /** Some chain from a root is longer than the depth bound. */
  ghost predicate Deep(index: Index, roots: seq<Name>) {
    exists p :: PathFrom(index, roots, p) && |p| > MAX_DEPENDENCY_DEPTH + 1
  }

  /** Every name is first met, in the order of the walk, within the depth bound. */
  ghost predicate Shallow(index: Index, roots: seq<Name>) {
    forall k, n :: FirstRoute(index, roots, k, n) ==> |k| <= MAX_DEPENDENCY_DEPTH + 1
  }

  ghost predicate MetWithin(index: Index, roots: seq<Name>, n: Name) {
    exists k :: FirstRoute(index, roots, k, n) && |k| <= MAX_DEPENDENCY_DEPTH + 1
  }

  ghost predicate AllMetWithin(index: Index, roots: seq<Name>, names: set<Name>) {
    forall n :: n in names ==> MetWithin(index, roots, n)
  }

  /** A name first met past the depth bound, or met again below itself. */
  ghost predicate MetTooDeep(index: Index, roots: seq<Name>, n: Name) {
    && Reachable(index, roots, n)
    && (OnCycle(index, n) || exists k :: FirstRoute(index, roots, k, n) && |k| > MAX_DEPENDENCY_DEPTH + 1)
  }

  /** Root `i` is switched off and no earlier root brings it in. */
  ghost predicate RefusedRoot(index: Index, roots: seq<Name>, i: nat)
    requires i < |roots|
  {
    !Enabled(index, roots[i]) && !Reachable(index, roots[..i], roots[i])
  }

  /** The error names a defect that is really there. */
  ghost predicate Justified(index: Index, roots: seq<Name>, ceiling: nat, e: ClosureError) {
    match e
    case DepthExceeded(n) => Deep(index, roots)
    case Cycle(n) => Reachable(index, roots, n) && OnCycle(index, n)
    case CeilingExceeded(n) => Crowded(index, roots, ceiling)
    case Missing(n) => Reachable(index, roots, n) && n !in index
    case Ambiguous(n) => Reachable(index, roots, n) && n in index && |index[n]| != 1
    case UnreadableDescriptor(n) => Reachable(index, roots, n) && n in index && |index[n]| == 1 && index[n][0].Unreadable?
    case NameMismatch(n, found) =>
      && Reachable(index, roots, n) && n in index && |index[n]| == 1 && index[n][0].Readable?
      && found == index[n][0].descriptor.name != n
    case Deactivated(n) => exists i :: 0 <= i < |roots| && roots[i] == n && RefusedRoot(index, roots, i)
  }

  /** The closure is exactly what the roots reach, closed, acyclic and within the ceiling. */
  ghost predicate Exact(index: Index, roots: seq<Name>, ceiling: nat, c: Closure) {
    && (forall n :: n in c.planned <==> Reachable(index, roots, n))
    && |c.planned| <= ceiling
    && c.disabled == Disabled(index, c.planned)
    && (forall n :: n in c.planned ==> Resolvable(index, n) && !OnCycle(index, n))
    && (forall i :: 0 <= i < |roots| ==> !RefusedRoot(index, roots, i))
  }

  /** A load order of the closure: what makes the engine's own recursion safe. */
  ghost predicate Ordered(index: Index, planned: set<Name>, order: seq<Name>) {
    && LoadOrder(index, order) && Distinct(order)
    && (forall n :: n in order <==> n in planned)
  }

  /** What a caller can check beforehand: the roots are plannable. */
  ghost predicate Plannable(index: Index, roots: seq<Name>, ceiling: nat) {
    && (forall n :: Reachable(index, roots, n) ==> Resolvable(index, n) && !OnCycle(index, n))
    && !Crowded(index, roots, ceiling)
    && (forall i :: 0 <= i < |roots| ==> !RefusedRoot(index, roots, i))
  }

  // ---- the walk ----

  /** What holds between visits: the stack and the plan are apart and within the ceiling,
      and the plan is an ordered set of reachable names. */
  ghost predicate Progress(index: Index, roots: seq<Name>, ceiling: nat,
                           visiting: set<Name>, planned: set<Name>, disabled: set<Name>, order: seq<Name>) {
    && Ordered(index, planned, order)
    && visiting !! planned
    && |visiting| + |planned| <= ceiling
    && disabled == Disabled(index, visiting + planned)
    && (forall n :: n in planned ==> Reachable(index, roots, n))
  }

  lemma ProgressPush(index: Index, roots: seq<Name>, ceiling: nat,
                     visiting: set<Name>, planned: set<Name>, disabled: set<Name>, order: seq<Name>, name: Name)
    requires Progress(index, roots, ceiling, visiting, planned, disabled, order)
    requires name !in planned && |visiting + {name}| + |planned| <= ceiling
    ensures Progress(index, roots, ceiling, visiting + {name}, planned,
                     if Enabled(index, name) then disabled else disabled + {name}, order)
  {
    hide Ordered, Enabled, Reachable;
  }

  lemma ProgressPop(index: Index, roots: seq<Name>, ceiling: nat,
                    visiting: set<Name>, planned: set<Name>, disabled: set<Name>, order: seq<Name>, name: Name)
    requires Progress(index, roots, ceiling, visiting, planned, disabled, order)
    requires name in visiting && Resolvable(index, name) && Reachable(index, roots, name)
    requires forall d :: d in Deps(index, name) ==> d in planned
    ensures Progress(index, roots, ceiling, visiting - {name}, planned + {name}, disabled, order + [name])
  {
    hide Deps, Resolvable, Reachable, LoadOrder;
    LoadOrderExtends(index, order, name);
    assert visiting - {name} + (planned + {name}) == visiting + planned;
    var more := order + [name];
    assert Distinct(more) by { assert name !in order; }
  }

  class Walk {
    var visiting: set<Name>
    var planned: set<Name>
    var disabled: set<Name>
    /** `planned` in the order the walk completed it. */
    ghost var order: seq<Name>

    constructor ()
      ensures visiting == planned == disabled == {} && order == []
    {
      visiting, planned, disabled, order := {}, {}, {}, [];
    }

    ghost predicate Valid(index: Index, roots: seq<Name>, ceiling: nat)
      reads this
    {
      Progress(index, roots, ceiling, visiting, planned, disabled, order)
    }

    /** Visit one name. `path` is the stack, the chain from a root down to the caller, and `here` the
        route through `all` the roots that leads down it to `name`. */
    method Visit(index: Index, name: Name, depth: nat, isRoot: bool, ceiling: nat,
                 ghost path: seq<Name>, ghost roots: seq<Name>, ghost all: seq<Name>, ghost here: Route) returns (r: Outcome<()>)
      requires Valid(index, roots, ceiling)
      requires Along(index, all, here, path + [name]) && LeftPlanned(index, all, here, planned)
      requires AllMetWithin(index, all, planned)
      requires depth == |path| <= MAX_DEPENDENCY_DEPTH + 1
      requires PathFrom(index, roots, path + [name]) && forall n :: n in visiting <==> n in path
      modifies this
      ensures r.Ok? ==> Valid(index, roots, ceiling) && visiting == old(visiting)
      ensures r.Ok? ==> name in planned && old(planned) <= planned && AllMetWithin(index, all, planned)
      ensures r.Err? && r.error.DepthExceeded? ==> MetTooDeep(index, all, r.error.name)
      ensures r.Ok? && isRoot ==> Enabled(index, name) || name in old(planned)
      ensures r.Err? && !r.error.Deactivated? ==> Justified(index, roots, ceiling, r.error)
      ensures r.Err? && r.error.Deactivated? ==>
                isRoot && r.error.name == name && name !in old(planned) && !Enabled(index, name)
      decreases MAX_DEPENDENCY_DEPTH + 1 - depth
    {
      hide Progress, Reachable, OnCycle, Crowded, PathFrom, Along, LeftPlanned, AllMetWithin, MetTooDeep, FirstRoute;
      ghost var stack := path + [name];
      ghost var before := visiting;
      assert stack[|stack| - 1] == name;
      PathPrefix(index, roots, stack, |stack| - 1);
      if name in planned {
        return Ok(());
      }
      if depth > MAX_DEPENDENCY_DEPTH {
        assert PathFrom(index, roots, stack) && |stack| > MAX_DEPENDENCY_DEPTH + 1;
        MeetTooDeep(index, roots, all, ceiling, visiting, planned, disabled, order, path, name, here);
        return Err(DepthExceeded(name));
      }
      if name in visiting {
        StackHoldsCycle(index, roots, path, name);
        return Err(Cycle(name));
      }
      visiting := visiting + {name};
      if |visiting| + |planned| > ceiling {
        StackAndPlanCrowd(index, roots, stack, before, planned, disabled, order, ceiling, name);
        return Err(CeilingExceeded(name));
      }
      if name !in index {
        return Err(Missing(name));
      }
      if |index[name]| != 1 {
        return Err(Ambiguous(name));
      }
      if index[name][0].Unreadable? {
        return Err(UnreadableDescriptor(name));
      }
      var descriptor := index[name][0].descriptor;
      if descriptor.name != name {
        return Err(NameMismatch(name, descriptor.name));
      }
      if isRoot && !descriptor.enabled {
        return Err(Deactivated(name));
      }
      assert MetWithin(index, all, name) by { Meet(index, roots, all, ceiling, before, planned, disabled, order, path, name, here); }
      ProgressPush(index, roots, ceiling, before, planned, disabled, order, name);
      if !descriptor.enabled {
        disabled := disabled + {name};
      }
      r := VisitDependencies(index, name, depth, ceiling, path, roots, all, here);
      if r.Err? {
        return;
      }
      ProgressPop(index, roots, ceiling, visiting, planned, disabled, order, name);
      visiting := visiting - {name};
      MetOneMore(index, all, planned, name);
      planned := planned + {name};
      order := order + [name];
      assert visiting == before;
    }

    /** The loop over the descriptor's dependencies, with `name` on the stack. */
    method VisitDependencies(index: Index, name: Name, depth: nat, ceiling: nat,
                             ghost path: seq<Name>, ghost roots: seq<Name>, ghost all: seq<Name>, ghost here: Route) returns (r: Outcome<()>)
      requires Valid(index, roots, ceiling) && Resolvable(index, name) && name in visiting
      requires Along(index, all, here, path + [name]) && LeftPlanned(index, all, here, planned)
      requires AllMetWithin(index, all, planned)
      requires depth == |path| <= MAX_DEPENDENCY_DEPTH
      requires PathFrom(index, roots, path + [name]) && forall n :: n in visiting <==> n in path + [name]
      modifies this
      ensures r.Ok? ==> Valid(index, roots, ceiling) && visiting == old(visiting) && old(planned) <= planned
      ensures r.Ok? ==> AllMetWithin(index, all, planned) && forall d :: d in Deps(index, name) ==> d in planned
      ensures r.Err? && r.error.DepthExceeded? ==> MetTooDeep(index, all, r.error.name)
      ensures r.Err? ==> !r.error.Deactivated? && Justified(index, roots, ceiling, r.error)
      decreases MAX_DEPENDENCY_DEPTH + 1 - depth, 0
    {
      hide Progress, Justified, Along, LeftPlanned, AllMetWithin, MetTooDeep;
      var dependencies := index[name][0].descriptor.dependencies;
      var k := 0;
      while k < |dependencies|
        invariant 0 <= k <= |dependencies|
        invariant Valid(index, roots, ceiling) && visiting == old(visiting) && old(planned) <= planned
        invariant forall j :: 0 <= j < k ==> dependencies[j] in planned
        invariant AllMetWithin(index, all, planned)
      {
        ghost var stack := path + [name];
        PathExtends(index, stack, dependencies[k]);
        LeftGrows(index, all, here, old(planned), planned);
        AlongLength(index, all, here, stack);
        LeftOfChild(index, all, here, stack, planned, dependencies, k);
        r := Visit(index, dependencies[k], depth + 1, false, ceiling, stack, roots, all, here + [k]);
        if r.Err? {
          return;
        }
        k := k + 1;
      }
      return Ok(());
    }
  }

  lemma AlongLength(index: Index, roots: seq<Name>, here: Route, stack: seq<Name>)
    requires Along(index, roots, here, stack) && stack != []
    ensures |here| == |stack| && here != []
  {
  }

  /** A name the walk goes into was met by its first route. */
  lemma Meet(index: Index, roots: seq<Name>, all: seq<Name>, ceiling: nat, visiting: set<Name>, planned: set<Name>,
             disabled: set<Name>, order: seq<Name>, path: seq<Name>, name: Name, here: Route)
    requires Progress(index, roots, ceiling, visiting, planned, disabled, order)
    requires Along(index, all, here, path + [name]) && LeftPlanned(index, all, here, planned)
    requires name !in planned && name !in path
    ensures |here| == |path| + 1 && FirstRoute(index, all, here, name)
  {
    hide FirstRoute, Reachable, Along, LeftPlanned;
    var stack := path + [name];
    OrderIsClosed(index, order, planned);
    AlongLength(index, all, here, stack);
    assert stack[..|stack| - 1] == path;
    DiscoveryIsFirst(index, all, here, stack, planned);
  }

  lemma MeetTooDeep(index: Index, roots: seq<Name>, all: seq<Name>, ceiling: nat, visiting: set<Name>, planned: set<Name>,
                    disabled: set<Name>, order: seq<Name>, path: seq<Name>, name: Name, here: Route)
    requires Progress(index, roots, ceiling, visiting, planned, disabled, order)
    requires Along(index, all, here, path + [name]) && LeftPlanned(index, all, here, planned) && PathFrom(index, roots, path + [name])
    requires name !in planned && |path| > MAX_DEPENDENCY_DEPTH
    ensures MetTooDeep(index, all, name)
  {
    hide FirstRoute, OnCycle, LeftPlanned, Progress;
    var stack := path + [name];
    assert here[..|here| - 1 + 1] == here && Leads(index, all, here[..|here| - 1 + 1], stack[|here| - 1]);
    var p := RouteIsPath(index, all, here, name);
    if name in path {
      StackHoldsCycle(index, roots, path, name);
    } else {
      Meet(index, roots, all, ceiling, visiting, planned, disabled, order, path, name, here);
    }
  }

  lemma MetOneMore(index: Index, all: seq<Name>, planned: set<Name>, name: Name)
    requires AllMetWithin(index, all, planned) && MetWithin(index, all, name)
    ensures AllMetWithin(index, all, planned + {name})
  {
    hide MetWithin;
  }

  lemma StackHoldsCycle(index: Index, roots: seq<Name>, path: seq<Name>, name: Name)
    requires PathFrom(index, roots, path + [name]) && name in path
    ensures OnCycle(index, name)
  {
    var k :| 0 <= k < |path| && path[k] == name;
    var here := path + [name];
    var loop := here[k..];
    forall i | 0 <= i < |loop| - 1 ensures loop[i + 1] in Deps(index, loop[i]) {
      assert loop[i] == here[k + i] && loop[i + 1] == here[k + i + 1];
    }
    assert IsPath(index, loop) && loop[|loop| - 1] == name;
  }

  lemma StackAndPlanCrowd(index: Index, roots: seq<Name>, here: seq<Name>,
                          visiting: set<Name>, planned: set<Name>, disabled: set<Name>, order: seq<Name>, ceiling: nat, name: Name)
    requires Progress(index, roots, ceiling, visiting, planned, disabled, order) && name in here && name !in planned
    requires PathFrom(index, roots, here) && (forall n :: n in visiting ==> n in here)
    requires |visiting + {name}| + |planned| > ceiling
    ensures Crowded(index, roots, ceiling)
  {
    hide Ordered;
    var names := visiting + {name} + planned;
    assert |names| == |visiting + {name}| + |planned|;
    forall n | n in names ensures Reachable(index, roots, n) {
      if n in here {
        var k :| 0 <= k < |here| && here[k] == n;
        PathPrefix(index, roots, here, k);
      }
    }
    assert AllReachable(index, roots, names);
  }

  // ---- the closure of a list of roots ----

  lemma ProgressWithMoreRoots(index: Index, fewer: seq<Name>, roots: seq<Name>, ceiling: nat,
                              visiting: set<Name>, planned: set<Name>, disabled: set<Name>, order: seq<Name>)
    requires Progress(index, fewer, ceiling, visiting, planned, disabled, order) && fewer <= roots
    ensures Progress(index, roots, ceiling, visiting, planned, disabled, order)
  {
    hide Ordered, Reachable;
    forall n | n in planned ensures Reachable(index, roots, n) {
      FewerRootsReachLess(index, fewer, roots, n);
    }
  }

  lemma JustifiedWithMoreRoots(index: Index, fewer: seq<Name>, roots: seq<Name>, ceiling: nat, e: ClosureError)
    requires Justified(index, fewer, ceiling, e) && !e.Deactivated? && fewer <= roots
    ensures Justified(index, roots, ceiling, e)
  {
    hide Reachable;
    match e
    case DepthExceeded(n) =>
      var p :| PathFrom(index, fewer, p) && |p| > MAX_DEPENDENCY_DEPTH + 1;
      assert PathFrom(index, roots, p);
    case CeilingExceeded(n) =>
      var names: set<Name> :| AllReachable(index, fewer, names) && |names| > ceiling;
      forall m | m in names ensures Reachable(index, roots, m) { FewerRootsReachLess(index, fewer, roots, m); }
      assert AllReachable(index, roots, names);
    case _ =>
      FewerRootsReachLess(index, fewer, roots, e.name);
  }

  /** A completed walk holds exactly what the roots reach. */
  lemma WalkIsExact(index: Index, roots: seq<Name>, ceiling: nat, planned: set<Name>, disabled: set<Name>, order: seq<Name>)
    requires Progress(index, roots, ceiling, {}, planned, disabled, order)
    requires forall r :: r in roots ==> r in planned
    requires forall i :: 0 <= i < |roots| ==> !RefusedRoot(index, roots, i)
    ensures Exact(index, roots, ceiling, Closure(planned, disabled))
  {
    hide Reachable, RefusedRoot, Enabled, OnCycle;
    assert {} + planned == planned;
    forall n ensures n in planned <==> Reachable(index, roots, n) {
      if Reachable(index, roots, n) { OrderHoldsReachable(index, order, roots, n); }
    }
    forall n | n in planned ensures Resolvable(index, n) && !OnCycle(index, n) {
      OrderAcyclic(index, order, n);
    }
  }

  /** An exact closure means the roots were plannable. */
  lemma ExactIsPlannable(index: Index, roots: seq<Name>, ceiling: nat, c: Closure)
    requires Exact(index, roots, ceiling, c)
    ensures Plannable(index, roots, ceiling)
  {
    hide Reachable, RefusedRoot, OnCycle, Resolvable;
    forall names: set<Name> | AllReachable(index, roots, names) ensures |names| <= ceiling {
      assert names <= c.planned;
      SubsetSize(names, c.planned);
    }
  }

  /** The closure on disk: each member has exactly one descriptor, readable and naming its directory; the
      roots and everything a member's descriptor lists are members; those switched off are the disabled. */
  lemma ExactOnDisk(index: Index, roots: seq<Name>, ceiling: nat, c: Closure)
    requires Exact(index, roots, ceiling, c)
    ensures forall n :: n in c.planned ==>
              n in index && |index[n]| == 1 && index[n][0].Readable? && index[n][0].descriptor.name == n
    ensures forall n :: n in c.disabled <==> n in c.planned && !index[n][0].descriptor.enabled
    ensures HoldsListed(index, roots, c.planned, c.planned)
  {
    hide OnCycle, RefusedRoot;
    forall r | r in roots ensures r in c.planned {
      assert PathFrom(index, roots, [r]);
    }
    hide Reachable;
    forall n, d | n in c.planned && Lists(index, n, d) ensures d in c.planned {
      DependencyIsReachable(index, roots, n, d);
    }
  }

  /** `closed` holds the roots and, for every name of `planned` in it, all its descriptor lists. */
  ghost predicate HoldsListed(index: Index, roots: seq<Name>, planned: set<Name>, closed: set<Name>) {
    && (forall r :: r in roots ==> r in closed)
    && (forall n, d :: n in planned && n in closed && Lists(index, n, d) ==> d in closed)
  }

  /** And it is the least such set. */
  lemma ExactIsLeast(index: Index, roots: seq<Name>, ceiling: nat, c: Closure, closed: set<Name>)
    requires Exact(index, roots, ceiling, c) && HoldsListed(index, roots, c.planned, closed)
    ensures c.planned <= closed
  {
    hide OnCycle, RefusedRoot, HoldsListed;
    forall n | n in c.planned ensures n in closed {
      var p :| PathFrom(index, roots, p) && p[|p| - 1] == n;
      StepsInside(index, roots, c.planned, closed, p, |p| - 1);
    }
  }

  lemma DependencyIsReachable(index: Index, roots: seq<Name>, n: Name, d: Name)
    requires Reachable(index, roots, n) && d in Deps(index, n)
    ensures Reachable(index, roots, d)
  {
    var p :| PathFrom(index, roots, p) && p[|p| - 1] == n;
    PathExtends(index, p, d);
    assert PathFrom(index, roots, p + [d]) && (p + [d])[|p|] == d;
  }

  lemma {:induction false} StepsInside(index: Index, roots: seq<Name>, planned: set<Name>, closed: set<Name>, p: seq<Name>, k: nat)
    requires PathFrom(index, roots, p) && k < |p| && (forall m :: m in planned <==> Reachable(index, roots, m))
    requires (forall m :: m in planned ==> Resolvable(index, m)) && HoldsListed(index, roots, planned, closed)
    ensures p[k] in closed
    decreases k
  {
    hide Reachable;
    if k > 0 {
      StepsInside(index, roots, planned, closed, p, k - 1);
      PathPrefix(index, roots, p, k - 1);
      assert p[k - 1 + 1] in Deps(index, p[k - 1]);
    }
  }

  lemma {:induction false} SubsetSize<T>(a: set<T>, b: set<T>)
    requires a <= b
    ensures |a| <= |b|
  {
    assert |b| == |a| + |b - a| by { assert b == a + (b - a); }
  }

  /** Every error but the depth bound means the roots were not plannable. */
  lemma ErrorIsNotPlannable(index: Index, roots: seq<Name>, ceiling: nat, e: ClosureError)
    requires Justified(index, roots, ceiling, e) && !e.DepthExceeded?
    ensures !Plannable(index, roots, ceiling)
  {
    hide Reachable, Crowded, OnCycle, RefusedRoot;
  }

  /** Walk the dependency closure of `roots`. It succeeds if and only if the roots are plannable and
      every name is first met within the depth bound, and then it returns exactly their closure. */
  method ClosureOf(index: Index, roots: seq<Name>, ceiling: nat) returns (r: Outcome<Closure>, ghost order: seq<Name>)
    ensures r.Ok? ==> Exact(index, roots, ceiling, r.value) && Ordered(index, r.value.planned, order)
    ensures r.Err? ==> Justified(index, roots, ceiling, r.error)
    ensures r.Err? && r.error.DepthExceeded? ==> MetTooDeep(index, roots, r.error.name)
    ensures r.Ok? <==> Plannable(index, roots, ceiling) && Shallow(index, roots)
  {
    hide Progress, Justified, Reachable, Plannable, Exact, Ordered, Shallow, AllMetWithin, MetTooDeep, Along, LeftPlanned;
    order := [];
    var walk := new Walk();
    assert walk.Valid(index, [], ceiling) by { EmptyProgress(index, ceiling); }
    assert AllMetWithin(index, roots, {}) by { NoneMet(index, roots); }
    var i := 0;
    assert roots[..0] == [];
    while i < |roots|
      invariant 0 <= i <= |roots| && fresh(walk)
      invariant walk.Valid(index, roots[..i], ceiling) && walk.visiting == {} && AllMetWithin(index, roots, walk.planned)
      invariant forall k :: 0 <= k < i ==> roots[k] in walk.planned && !RefusedRoot(index, roots, k)
    {
      ghost var before, sofar := walk.planned, walk.order;
      ProgressWithMoreRoots(index, roots[..i], roots[..i + 1], ceiling, {}, walk.planned, walk.disabled, walk.order);
      assert PathFrom(index, roots[..i + 1], [] + [roots[i]]) by { assert ([] + [roots[i]])[0] == roots[..i + 1][i]; }
      PlannedIsReached(index, roots, i, ceiling, before, walk.disabled, sofar);
      LeftOfRoot(index, roots, i, walk.planned);
      assert [] + [roots[i]] == [roots[i]];
      var v := walk.Visit(index, roots[i], 0, true, ceiling, [], roots[..i + 1], roots, [i]);
      if v.Err? {
        if v.error.Deactivated? {
          assert RefusedRoot(index, roots, i);
          assert Justified(index, roots, ceiling, v.error) by { RefusalJustified(index, roots, ceiling, i); }
        } else {
          JustifiedWithMoreRoots(index, roots[..i + 1], roots, ceiling, v.error);
        }
        RefusedForAReason(index, roots, ceiling, v.error);
        return Err(v.error), order;
      }
      i := i + 1;
    }
    assert roots[..i] == roots;
    order := walk.order;
    WalkIsExact(index, roots, ceiling, walk.planned, walk.disabled, order);
    ExactIsPlannable(index, roots, ceiling, Closure(walk.planned, walk.disabled));
    MetIsShallow(index, roots, ceiling, Closure(walk.planned, walk.disabled));
    assert Ordered(index, walk.planned, order) by { ProgressIsOrdered(index, roots, ceiling, {}, walk.planned, walk.disabled, order); }
    r := Ok(Closure(walk.planned, walk.disabled));
  }

  lemma EmptyProgress(index: Index, ceiling: nat)
    ensures Progress(index, [], ceiling, {}, {}, {}, [])
  {
  }

  lemma ProgressIsOrdered(index: Index, roots: seq<Name>, ceiling: nat,
                          visiting: set<Name>, planned: set<Name>, disabled: set<Name>, order: seq<Name>)
    requires Progress(index, roots, ceiling, visiting, planned, disabled, order)
    ensures Ordered(index, planned, order)
  {
  }

  /** Between roots the plan holds exactly what the earlier roots reach. */
  lemma PlannedIsReached(index: Index, roots: seq<Name>, i: nat, ceiling: nat, planned: set<Name>, disabled: set<Name>, order: seq<Name>)
    requires i < |roots| && Progress(index, roots[..i], ceiling, {}, planned, disabled, order)
    requires forall k :: 0 <= k < i ==> roots[k] in planned
    ensures roots[i] in planned <==> Reachable(index, roots[..i], roots[i])
  {
    hide Reachable;
    if Reachable(index, roots[..i], roots[i]) {
      OrderHoldsReachable(index, order, roots[..i], roots[i]);
    }
  }

  lemma RefusalJustified(index: Index, roots: seq<Name>, ceiling: nat, i: nat)
    requires i < |roots| && RefusedRoot(index, roots, i)
    ensures Justified(index, roots, ceiling, Deactivated(roots[i]))
  {
  }

  lemma RefusedForAReason(index: Index, roots: seq<Name>, ceiling: nat, e: ClosureError)
    requires Justified(index, roots, ceiling, e) && (e.DepthExceeded? ==> MetTooDeep(index, roots, e.name))
    ensures !(Plannable(index, roots, ceiling) && Shallow(index, roots))
  {
    hide Reachable, OnCycle, FirstRoute, Justified, Crowded, RefusedRoot;
    if !e.DepthExceeded? { ErrorIsNotPlannable(index, roots, ceiling, e); }
  }

  lemma NoneMet(index: Index, roots: seq<Name>)
    ensures AllMetWithin(index, roots, {})
  {
  }

  /** Everything reachable was met within the bound, by the only first route there is. */
  lemma MetIsShallow(index: Index, roots: seq<Name>, ceiling: nat, c: Closure)
    requires Exact(index, roots, ceiling, c) && AllMetWithin(index, roots, c.planned)
    ensures Shallow(index, roots)
  {
    hide OnCycle, RefusedRoot, Resolvable;
    forall k, n | FirstRoute(index, roots, k, n) ensures |k| <= MAX_DEPENDENCY_DEPTH + 1 {
      var p := RouteIsPath(index, roots, k, n);
      assert MetWithin(index, roots, n);
      var first :| FirstRoute(index, roots, first, n) && |first| <= MAX_DEPENDENCY_DEPTH + 1;
      FirstRouteIsUnique(index, roots, k, first, n);
    }
  }

  /** Where no chain at all is longer than the bound, the walk never meets it. */
  lemma NotDeepIsShallow(index: Index, roots: seq<Name>)
    requires !Deep(index, roots)
    ensures Shallow(index, roots)
  {
    forall k, n | FirstRoute(index, roots, k, n) ensures |k| <= MAX_DEPENDENCY_DEPTH + 1 {
      var p := RouteIsPath(index, roots, k, n);
    }
  }

  // ---- what the exact condition lets through ----

  /** Roots inside a short enough load order are plannable, if none is refused. */
  lemma OrderIsPlannable(index: Index, roots: seq<Name>, order: seq<Name>, ceiling: nat)
    requires LoadOrder(index, order) && Distinct(order) && |order| <= ceiling && forall r :: r in roots ==> r in order
    requires forall i :: 0 <= i < |roots| ==> !RefusedRoot(index, roots, i)
    ensures Plannable(index, roots, ceiling)
  {
    hide Reachable, OnCycle, RefusedRoot;
    forall n | Reachable(index, roots, n) ensures n in order && Resolvable(index, n) && !OnCycle(index, n) {
      OrderHoldsReachable(index, order, roots, n);
      OrderAcyclic(index, order, n);
    }
    forall names: set<Name> | AllReachable(index, roots, names) ensures |names| <= ceiling {
      FewNames(names, order);
    }
  }

  lemma {:induction false} FewNames(names: set<Name>, order: seq<Name>)
    requires forall n :: n in names ==> n in order
    ensures |names| <= |order|
  {
    if order == [] {
      assert names == {};
    } else {
      FewNames(names - {order[0]}, order[1..]);
    }
  }

  /** Inside a load order no longer than the bound nothing is deep. */
  lemma ShortOrderIsNotDeep(index: Index, roots: seq<Name>, order: seq<Name>)
    requires LoadOrder(index, order) && |order| <= MAX_DEPENDENCY_DEPTH + 1 && forall r :: r in roots ==> r in order
    ensures !Deep(index, roots)
  {
    forall p | PathFrom(index, roots, p) ensures |p| <= MAX_DEPENDENCY_DEPTH + 1 {
      var i :| 0 <= i < |order| && order[i] == p[0];
      var j := PathDescends(index, order, i, p);
    }
  }

  /** Naming a switched-off model is refused or accepted depending on where it stands in
      the list: after a root that depends on it, the walk accepts it. */
  lemma DisabledRootDependsOnOrder()
    ensures var index := map["a" := [Readable(Descriptor("a", true, ["b"]))], "b" := [Readable(Descriptor("b", false, []))]];
            && Plannable(index, ["a", "b"], 2) && Shallow(index, ["a", "b"])
            && !Plannable(index, ["b", "a"], 2)
  {
    var index := map["a" := [Readable(Descriptor("a", true, ["b"]))], "b" := [Readable(Descriptor("b", false, []))]];
    var p, order := ["a", "b"], ["b", "a"];
    assert p[1] in Deps(index, p[0]);
    assert ["a", "b"][..1] == ["a"] && ["b", "a"][..0] == [] && order[..1] == ["b"];
    assert PathFrom(index, ["a"], p) && p[|p| - 1] == "b";
    assert !RefusedRoot(index, ["a", "b"], 0) && !RefusedRoot(index, ["a", "b"], 1) && RefusedRoot(index, ["b", "a"], 0);
    hide RefusedRoot;
    OrderIsPlannable(index, ["a", "b"], order, 2);
    ShortOrderIsNotDeep(index, ["a", "b"], order);
    NotDeepIsShallow(index, ["a", "b"]);
  }

  /** A chain of `n` enabled models, each depending on the one before. */
  function Link(k: nat): (n: Name)
    ensures |n| == k
  {
    seq(k, _ => 'm')
  }

  function ChainIndex(n: nat): Index {
    if n == 0 then map[]
    else ChainIndex(n - 1)[Link(n) := [Readable(Descriptor(Link(n), true, if n == 1 then [] else [Link(n - 1)]))]]
  }

  function ChainRoots(n: nat): (roots: seq<Name>)
    ensures |roots| == n && forall i :: 0 <= i < n ==> roots[i] == Link(i + 1)
  {
    seq(n, i requires 0 <= i => Link(i + 1))
  }

  lemma {:induction false} ChainHolds(n: nat, k: nat)
    requires 1 <= k <= n
    ensures Enabled(ChainIndex(n), Link(k)) && Deps(ChainIndex(n), Link(k)) == if k == 1 then [] else [Link(k - 1)]
  {
    if k < n {
      ChainHolds(n - 1, k);
      assert Link(k) != Link(n);
    }
  }

  lemma ChainIsOrdered(n: nat)
    ensures LoadOrder(ChainIndex(n), ChainRoots(n)) && Distinct(ChainRoots(n))
  {
    var index, roots := ChainIndex(n), ChainRoots(n);
    hide ChainIndex, Deps, Enabled;
    forall i | 0 <= i < n ensures Resolvable(index, roots[i]) && forall d :: d in Deps(index, roots[i]) ==> d in roots[..i] {
      ChainHolds(n, i + 1);
      EnabledResolves(index, roots[i]);
      if i > 0 { assert roots[..i][i - 1] == Link(i); }
    }
  }

  lemma EnabledResolves(index: Index, n: Name)
    requires Enabled(index, n)
    ensures Resolvable(index, n)
  {
  }

  lemma ChainIsDeep(n: nat)
    requires n > MAX_DEPENDENCY_DEPTH + 1
    ensures Deep(ChainIndex(n), ChainRoots(n))
  {
    var index, roots := ChainIndex(n), ChainRoots(n);
    hide ChainIndex;
    var p := seq(n, i requires 0 <= i < n => Link(n - i));
    forall i | 0 <= i < n - 1 ensures p[i + 1] in Deps(index, p[i]) {
      ChainHolds(n, n - i);
    }
    assert p[0] == roots[n - 1] && PathFrom(index, roots, p);
  }

  /** Memoisation lets a chain of any depth through, if the list names dependencies first. */
  lemma DeepChainSucceeds(n: nat)
    requires n > MAX_DEPENDENCY_DEPTH + 1
    ensures var index, roots := ChainIndex(n), ChainRoots(n);
            Deep(index, roots) && Shallow(index, roots) && Plannable(index, roots, n)
  {
    var index, roots := ChainIndex(n), ChainRoots(n);
    hide ChainIndex, ChainRoots, LoadOrder, FirstRoute, Deep, Enabled;
    ChainIsDeep(n);
    ChainIsOrdered(n);
    forall k, m | FirstRoute(index, roots, k, m) ensures |k| <= MAX_DEPENDENCY_DEPTH + 1 {
      LoadOrderIsFlat(index, roots, k, m);
    }
    forall i | 0 <= i < |roots| ensures !RefusedRoot(index, roots, i) {
      ChainHolds(n, i + 1);
    }
    OrderIsPlannable(index, roots, roots, n);
  }

  /** From the top of a chain every route takes the only choice there is. */
  lemma {:induction false} RouteDown(n: nat, k: Route, m: Name)
    requires n >= 1 && Leads(ChainIndex(n), [Link(n)], k, m)
    ensures 1 <= |k| <= n && m == Link(n - |k| + 1) && forall i :: 0 <= i < |k| ==> k[i] == 0
    decreases |k|
  {
    hide ChainIndex;
    if |k| > 1 {
      var init := k[..|k| - 1];
      var before := Target(ChainIndex(n), [Link(n)], init);
      if before.Some? {
        RouteDown(n, init, before.value);
        ChainHolds(n, n - |init| + 1);
        assert forall i :: 0 <= i < |init| ==> k[i] == init[i];
      }
    }
  }

  lemma {:induction false} DownTo(n: nat, depth: nat) returns (k: Route)
    requires 1 <= depth <= n
    ensures |k| == depth && Leads(ChainIndex(n), [Link(n)], k, Link(n - depth + 1))
  {
    hide ChainIndex;
    if depth == 1 {
      k := [0];
    } else {
      var init := DownTo(n, depth - 1);
      ChainHolds(n, n - depth + 2);
      k := init + [0];
      assert k[..|k| - 1] == init;
    }
  }

  /** Asked for by its top alone, a chain is met within the depth bound exactly up to 33 models, which
      is 32 dependencies. */
  lemma ChainDepth(n: nat)
    requires n >= 1
    ensures Shallow(ChainIndex(n), [Link(n)]) <==> n <= 33
  {
    hide ChainIndex, Leads;
    var index, roots := ChainIndex(n), [Link(n)];
    if n <= 33 {
      forall k, m | FirstRoute(index, roots, k, m) ensures |k| <= MAX_DEPENDENCY_DEPTH + 1 {
        RouteDown(n, k, m);
      }
    } else {
      var k := DownTo(n, 34);
      RouteDown(n, k, Link(n - 33));
      forall other | Leads(index, roots, other, Link(n - 33)) ensures !Earlier(other, k) {
        RouteDown(n, other, Link(n - 33));
        assert |Link(n - 33)| == n - 33;
      }
      assert FirstRoute(index, roots, k, Link(n - 33));
    }
  }

  // ---- the admin preflight ----

  const USIZE_MAX: nat := 0xFFFF_FFFF_FFFF_FFFF

  datatype AdminOutcome = Planned(names: set<Name>) | Refused(error: ClosureError) | DependsOnDeactivated(names: set<Name>)

  /** The closure of one name for an admin load; refused when any member is switched off. */
  method AdminLoadClosure(index: Index, name: Name) returns (r: AdminOutcome, ghost order: seq<Name>)
    ensures r.Planned? ==> Ordered(index, r.names, order)
    ensures r.Planned? ==> forall n :: n in r.names <==> Reachable(index, [name], n)
    ensures r.Planned? ==> forall n :: n in r.names ==> Enabled(index, n)
    ensures r.DependsOnDeactivated? ==> r.names != {} && forall n :: n in r.names <==> Reachable(index, [name], n) && !Enabled(index, n)
    ensures r.Refused? ==> Justified(index, [name], USIZE_MAX, r.error)
    ensures r.Refused? <==> !(Plannable(index, [name], USIZE_MAX) && Shallow(index, [name]))
    ensures r.Planned? ==> forall n :: Reachable(index, [name], n) ==> Enabled(index, n)
  {
    hide Reachable, Justified, Ordered, Enabled, Plannable, Shallow;
    var c;
    c, order := ClosureOf(index, [name], USIZE_MAX);
    if c.Err? {
      return Refused(c.error), order;
    }
    if c.value.disabled != {} {
      return DependsOnDeactivated(c.value.disabled), order;
    }
    forall n | n in c.value.planned ensures Enabled(index, n) {
      assert n !in Disabled(index, c.value.planned);
    }
    return Planned(c.value.planned), order;
  }
}

/** Boot and the admin routes, one request at a time under the lifecycle lock: the
    preflight is what bounds residency and what makes the engine's recursive load end. */
module ResidentCeiling {
  import opened Names
  import opened ModelStore
  import opened ModelClosure
  import opened EngineLoad
  import UnloadOrder

  datatype LoadOutcome =
    | Loaded
    | AlreadyLoaded
    | NotInConfiguredList
    | NotOnDisk
    | MultipleBackends
    | BrokenDescriptor
    | DeactivatedDescriptor
    | PreflightRefused
    | OverCeiling(would: nat)
    | ExceededDespitePreflight
    | EngineFailed

  predicate Refusal(outcome: LoadOutcome) { !outcome.Loaded? && !outcome.EngineFailed? }

  datatype Request =
    | Load(index: Index, names: seq<Name>, faults: nat -> Faults)
    | Unload(index: Index, names: seq<Name>)

  lemma ElementsOfPlan(index: Index, planned: set<Name>, order: seq<Name>)
    requires Ordered(index, planned, order)
    ensures Elements(order) == planned && LoadOrder(index, order) && Distinct(order)
  {
    hide LoadOrder;
  }

  /** What makes the boot-time closure walk succeed. */
  ghost predicate Bootable(index: Index, roots: seq<Name>, ceiling: nat) {
    Plannable(index, roots, ceiling) && Shallow(index, roots)
  }

  /** What makes the preflight of one name succeed: its closure can be planned and is all enabled. */
  ghost predicate Loadable(index: Index, name: Name) {
    && Plannable(index, [name], USIZE_MAX) && Shallow(index, [name])
    && forall n :: Reachable(index, [name], n) ==> Enabled(index, n)
  }

  /** The closure of one name, added to what is resident, makes `count`. */
  ghost predicate Makes(index: Index, name: Name, resident: set<Name>, count: nat) {
    exists planned: set<Name> :: (forall n :: n in planned <==> Reachable(index, [name], n)) && |resident + planned| == count
  }

  /** One root the boot tried: whether it loaded and what was resident then. */
  datatype Try = Try(name: Name, ok: bool, after: set<Name>)

  function After(tries: seq<Try>): set<Name> { if tries == [] then {} else tries[|tries| - 1].after }

  /** The names tried with this answer, in order. */
  function Answered(tries: seq<Try>, ok: bool): seq<Name> {
    if tries == [] then []
    else
      var last := tries[|tries| - 1];
      Answered(tries[..|tries| - 1], ok) + (if last.ok == ok then [last.name] else [])
  }

  /** The `k`th try loads the `k`th root over what the ones before it left. */
  ghost predicate TriedAt(index: Index, roots: seq<Name>, faults: nat -> Faults, tries: seq<Try>, k: nat)
    requires k < |tries| <= |roots|
  {
    tries[k].name == roots[k] && EngineLoads(index, faults(k), After(tries[..k]), roots[k], tries[k].ok, tries[k].after)
  }

  /** Each root in turn is tried. */
  ghost predicate Tried(index: Index, roots: seq<Name>, faults: nat -> Faults, tries: seq<Try>) {
    |tries| <= |roots| && forall k :: 0 <= k < |tries| ==> TriedAt(index, roots, faults, tries, k)
  }

  lemma NothingTried(index: Index, roots: seq<Name>, faults: nat -> Faults)
    ensures Tried(index, roots, faults, []) && Answered([], true) == Answered([], false) == []
  {
  }

  lemma TriedOneMore(index: Index, roots: seq<Name>, faults: nat -> Faults, tries: seq<Try>, next: Try)
    requires Tried(index, roots, faults, tries) && |tries| < |roots| && next.name == roots[|tries|]
    requires EngineLoads(index, faults(|tries|), After(tries), next.name, next.ok, next.after)
    ensures Tried(index, roots, faults, tries + [next])
  {
    hide EngineLoads, After, TriedAt;
    var more := tries + [next];
    forall k | 0 <= k < |more| ensures TriedAt(index, roots, faults, more, k) {
      TryStays(index, roots, faults, tries, next, k);
    }
  }

  lemma TryStays(index: Index, roots: seq<Name>, faults: nat -> Faults, tries: seq<Try>, next: Try, k: nat)
    requires |tries| < |roots| && next.name == roots[|tries|] && k <= |tries|
    requires if k < |tries| then TriedAt(index, roots, faults, tries, k)
             else EngineLoads(index, faults(k), After(tries), next.name, next.ok, next.after)
    ensures TriedAt(index, roots, faults, tries + [next], k)
  {
    hide EngineLoads, After;
    assert (tries + [next])[..k] == tries[..k];
    assert tries[..|tries|] == tries;
  }

  lemma AnsweredOneMore(tries: seq<Try>, next: Try)
    ensures After(tries + [next]) == next.after
    ensures Answered(tries + [next], next.ok) == Answered(tries, next.ok) + [next.name]
    ensures Answered(tries + [next], !next.ok) == Answered(tries, !next.ok)
  {
    assert (tries + [next])[..|tries|] == tries;
  }

  class Node {
    const ceiling: nat
    /** The `--models` list; empty means any enabled descriptor. */
    const allowed: seq<Name>
    /** Names with a registered pool and executor. */
    var resident: set<Name>

    ghost predicate Valid()
      reads this
    {
      |resident| <= ceiling
    }

    constructor (ceiling: nat, allowed: seq<Name>)
      ensures Valid() && resident == {} && this.ceiling == ceiling && this.allowed == allowed
    {
      this.ceiling, this.allowed, resident := ceiling, allowed, {};
    }

    /** The engine's recursive load. It has no cycle check of its own: it ends because
        `name` stands at `at` in a load order and every dependency stands before it. */
    method LoadModel(index: Index, name: Name, faults: Faults, ghost order: seq<Name>, ghost at: nat) returns (ok: bool)
      requires LoadOrder(index, order) && Distinct(order) && at < |order| && order[at] == name
      modifies this
      ensures EngineLoads(index, faults, old(resident), name, ok, resident)
      ensures ok && name !in old(resident) ==>
                name !in faults.read && name !in faults.build && index[name][0].descriptor.enabled
      ensures resident <= old(resident) + Elements(order[..at + 1])
      decreases at, 1
    {
      hide EngineLoads, Grown, Needs, Elements;
      if name in resident {
        AlreadyThere(index, faults, resident, name);
        return true;
      }
      NothingGrown(index, faults, resident, name);
      NeedsItself(index, resident, name);
      var descriptor := index[name][0].descriptor;
      if name in faults.read || !descriptor.enabled {
        LoadFails(index, faults, resident, name, resident, name);
        return false;
      }
      ghost var before := resident;
      ok := LoadDependencies(index, name, faults, order, at);
      PrefixNext(order, at);
      if !ok {
        return;
      }
      if name in faults.build {
        LoadFails(index, faults, before, name, resident, name);
        return false;
      }
      LoadSucceeds(index, faults, before, name, resident);
      resident := resident + {name};
    }

    /** The dependency loop. */
    method LoadDependencies(index: Index, name: Name, faults: Faults, ghost order: seq<Name>, ghost at: nat) returns (ok: bool)
      requires LoadOrder(index, order) && Distinct(order) && at < |order| && order[at] == name && name !in resident
      modifies this
      ensures ok ==> Grown(index, faults, old(resident), name, resident) && name !in resident
      ensures ok ==> forall d :: d in Deps(index, name) ==> d in resident
      ensures !ok ==> EngineLoads(index, faults, old(resident), name, false, resident)
      ensures resident <= old(resident) + Elements(order[..at])
      decreases at, 0
    {
      hide EngineLoads, Grown, Needs, Elements, LoadOrder;
      ghost var before := resident;
      NothingGrown(index, faults, resident, name);
      var dependencies := Deps(index, name);
      var k := 0;
      while k < |dependencies|
        invariant 0 <= k <= |dependencies| && before <= resident <= before + Elements(order[..at])
        invariant Grown(index, faults, before, name, resident)
        invariant forall j :: 0 <= j < k ==> dependencies[j] in resident
      {
        var dependency := dependencies[k];
        ghost var middle := resident;
        ghost var earlier := DependencyPlace(index, order, at, dependency);
        ok := LoadModel(index, dependency, faults, order, earlier);
        PrefixGrows(order, earlier + 1, at);
        PrefixLacks(order, at);
        DependencyLoaded(index, faults, before, name, middle, dependency, resident, ok);
        if !ok {
          return;
        }
        k := k + 1;
      }
      PrefixLacks(order, at);
      return true;
    }

    /** Boot: prove the whole set fits, then try each root in turn. Without an explicit list every root
        is tried and is reported as loaded or failed; with one, the first failure ends the boot. */
    method Boot(index: Index, roots: seq<Name>, explicit: bool, faults: nat -> Faults)
      returns (started: bool, loaded: seq<Name>, failed: seq<Name>, ghost tries: seq<Try>)
      requires resident == {}
      modifies this
      ensures Valid()
      ensures started <==> Bootable(index, roots, ceiling) && (explicit ==> failed == [])
      ensures Tried(index, roots, faults, tries) && resident == After(tries)
      ensures loaded == Answered(tries, true) && failed == Answered(tries, false)
      ensures if Bootable(index, roots, ceiling) then |tries| == |roots| || (explicit && failed != []) else tries == []
      ensures explicit ==> forall k :: 0 <= k < |tries| - 1 ==> tries[k].ok
      ensures forall n :: n in resident ==> Reachable(index, roots, n) && Resolvable(index, n)
    {
      hide Reachable, Resolvable, Bootable, Ordered, Tried, Answered, EngineLoads;
      loaded, failed, tries := [], [], [];
      NothingTried(index, roots, faults);
      ghost var planned, order;
      started, planned, order := BootClosure(index, roots);
      if !started {
        return;
      }
      var i := 0;
      while i < |roots|
        invariant 0 <= i == |tries| <= |roots| && Tried(index, roots, faults, tries)
        invariant resident == After(tries) <= planned
        invariant loaded == Answered(tries, true) && failed == Answered(tries, false)
        invariant explicit ==> failed == [] && forall k :: 0 <= k < |tries| ==> tries[k].ok
      {
        var ok := LoadPlanned(index, roots[i], faults(i), planned, order);
        TriedOneMore(index, roots, faults, tries, Try(roots[i], ok, resident));
        AnsweredOneMore(tries, Try(roots[i], ok, resident));
        tries := tries + [Try(roots[i], ok, resident)];
        if ok {
          loaded := loaded + [roots[i]];
        } else {
          failed := failed + [roots[i]];
          if explicit {
            SubsetSize(resident, planned);
            return false, loaded, failed, tries;
          }
        }
        i := i + 1;
      }
      SubsetSize(resident, planned);
    }

    /** The closure walk of the boot. */
    method BootClosure(index: Index, roots: seq<Name>) returns (fits: bool, ghost planned: set<Name>, ghost order: seq<Name>)
      ensures fits <==> Bootable(index, roots, ceiling)
      ensures fits ==> Ordered(index, planned, order) && |planned| <= ceiling && forall r :: r in roots ==> r in planned
      ensures fits ==> forall n :: n in planned ==> Reachable(index, roots, n) && Resolvable(index, n)
    {
      hide Reachable, Resolvable, Plannable, Shallow, Exact, Ordered, Justified, MetTooDeep;
      var closure;
      closure, order := ClosureOf(index, roots, ceiling);
      fits := closure.Ok?;
      planned := if fits then closure.value.planned else {};
      if fits {
        PlannedIsClosure(index, roots, ceiling, closure.value);
        forall r | r in roots ensures r in planned {
          var i :| 0 <= i < |roots| && roots[i] == r;
          RootsAreReachable(index, roots, i);
        }
      }
    }

    /** One admin load: gate, find, read, preflight, count, load. Each refusal has its exact reason. */
    method LoadOne(index: Index, name: Name, faults: Faults) returns (outcome: LoadOutcome)
      requires Valid()
      modifies this
      ensures Valid() && LoadsOne(allowed, ceiling, index, faults, name, old(resident), resident, outcome)
    {
      hide Reachable, Loadable, Enabled, Makes, EngineLoads;
      if allowed != [] && name !in allowed {
        return NotInConfiguredList;
      }
      if name !in index || |index[name]| == 0 {
        return NotOnDisk;
      }
      if |index[name]| > 1 {
        return MultipleBackends;
      }
      if index[name][0].Unreadable? {
        return BrokenDescriptor;
      }
      if !index[name][0].descriptor.enabled {
        return DeactivatedDescriptor;
      }
      if name in resident {
        return AlreadyLoaded;
      }
      outcome := LoadEnabled(index, name, faults);
    }

    /** The preflight, the count and the load of a name that is listed, enabled and not yet resident. */
    method LoadEnabled(index: Index, name: Name, faults: Faults) returns (outcome: LoadOutcome)
      requires Valid() && OneEnabledDescriptor(index, name) && name !in resident
      modifies this
      ensures Valid() && Preflighted(ceiling, index, faults, name, old(resident), outcome)
      ensures Changes(index, faults, name, old(resident), resident, outcome)
    {
      hide Reachable, Enabled, Loadable, Makes, Ordered, OneEnabledDescriptor, EngineLoads, AllWorks;
      var closure, order := Preflight(index, name);
      if closure.None? {
        return PreflightRefused;
      }
      var additions := closure.value - resident;
      Counts(index, name, resident, closure.value);
      var would := |resident| + |additions|;
      if would > ceiling {
        return OverCeiling(would);
      }
      assert MakesAtMost(index, name, resident, ceiling);
      ghost var before := resident;
      var ok := LoadPlanned(index, name, faults, closure.value, order);
      OkIfAllWorks(index, faults, before, name, ok, resident);
      if ok {
        if |resident| <= ceiling {
          return Loaded;
        }
        return ExceededDespitePreflight;
      }
      return EngineFailed;
    }

    method Preflight(index: Index, name: Name) returns (closure: Option<set<Name>>, ghost order: seq<Name>)
      ensures closure.Some? <==> Loadable(index, name)
      ensures closure.Some? ==>
                && Ordered(index, closure.value, order) && name in closure.value
                && forall n :: n in closure.value <==> Reachable(index, [name], n)
      ensures closure.Some? ==> forall n :: n in closure.value ==> Enabled(index, n)
    {
      hide Reachable, Justified, Plannable, Shallow, Enabled, Ordered;
      var planned;
      planned, order := AdminLoadClosure(index, name);
      RootsAreReachable(index, [name], 0);
      closure := if planned.Planned? then Some(planned.names) else None;
    }

    /** The engine loads a planned name: it adds only planned names. */
    method LoadPlanned(index: Index, name: Name, faults: Faults, ghost planned: set<Name>, ghost order: seq<Name>) returns (ok: bool)
      requires Ordered(index, planned, order) && name in planned
      modifies this
      ensures EngineLoads(index, faults, old(resident), name, ok, resident)
      ensures old(resident) <= resident <= old(resident) + planned
      ensures |resident| <= |old(resident)| + |planned - old(resident)|
    {
      hide LoadOrder, Ordered, Elements, EngineLoads, Distinct;
      ghost var additions := planned - resident;
      ElementsOfPlan(index, planned, order);
      ghost var at := PlaceOf(order, name);
      PrefixElements(order, at + 1);
      ok := LoadModel(index, name, faults, order, at);
      OkIfAllWorks(index, faults, old(resident), name, ok, resident);
      SubsetSize(resident, old(resident) + additions);
      assert |old(resident) + additions| == |old(resident)| + |additions|;
    }

    /** A list of admin loads, in turn. */
    method LoadModels(index: Index, names: seq<Name>, faults: nat -> Faults) returns (outcomes: seq<LoadOutcome>)
      requires Valid()
      modifies this
      ensures Valid() && Loads(allowed, ceiling, index, faults, names, old(resident), resident, outcomes)
      ensures Adds(index, names, old(resident), resident, outcomes)
    {
      hide Adds, Loads, LoadsOne;
      outcomes := [];
      NothingLoads(allowed, ceiling, index, faults, resident);
      assert names[..0] == [];
      while |outcomes| < |names|
        invariant |outcomes| <= |names| && Valid()
        invariant Loads(allowed, ceiling, index, faults, names[..|outcomes|], old(resident), resident, outcomes)
        invariant Adds(index, names[..|outcomes|], old(resident), resident, outcomes)
        decreases |names| - |outcomes|
      {
        var k := |outcomes|;
        ghost var before := resident;
        var outcome := LoadOne(index, names[k], faults(k));
        LoadsOneMore(allowed, ceiling, index, faults, names[..k], names[k], old(resident), before, resident, outcomes, outcome);
        AddsOneMore(allowed, ceiling, index, faults, names[..k], names[k], old(resident), before, resident, outcomes, outcome);
        assert names[..k] + [names[k]] == names[..k + 1];
        outcomes := outcomes + [outcome];
      }
      assert names[..|names|] == names;
    }

    /** Unload in dependency order; each name reports whether it was loaded. By the descriptors on disk,
        dependents go before what they depend on, unless the names asked for hold a cycle. */
    method UnloadModels(index: Index, names: seq<Name>) returns (order: seq<Name>, unloaded: seq<bool>)
      requires Valid()
      modifies this
      ensures Valid() && resident == old(resident) - Elements(names)
      ensures Distinct(order) && Elements(order) == Elements(names)
      ensures NoneListedLater(index, order) <==> !ListedInCircle(index, names)
      ensures !ListedInCircle(index, names) ==> ChainsRunForward(index, names, order)
      ensures UnloadOrder.TakesTurns(RequestDependencies(index, names), names, [], order)
      ensures |unloaded| == |order| && forall k :: 0 <= k < |order| ==> unloaded[k] == (order[k] in old(resident))
    {
      hide UnloadOrder.Ordered, UnloadOrder.Dedup, UnloadOrder.TakesTurns, NoneListedLater, ListedInCircle, ChainsRunForward;
      hide RequestDependencies;
      var dependencies := RequestDependencies(index, names);
      order := UnloadOrder.ReverseDependencyOrder(names, dependencies);
      UnloadOrder.OrderIsPermutation(names, dependencies);
      assert Elements(order) == Elements(names);
      UnloadOrder.UnloadsInTurn(names, dependencies);
      DependentsGoFirst(index, names, order);
      unloaded := UnloadEach(order);
      SubsetSize(resident, old(resident));
    }

    method UnloadEach(order: seq<Name>) returns (unloaded: seq<bool>)
      requires Distinct(order)
      modifies this
      ensures resident == old(resident) - Elements(order)
      ensures |unloaded| == |order| && forall k :: 0 <= k < |order| ==> unloaded[k] == (order[k] in old(resident))
    {
      unloaded := [];
      while |unloaded| < |order|
        invariant |unloaded| <= |order|
        invariant resident == old(resident) - Elements(order[..|unloaded|])
        invariant forall k :: 0 <= k < |unloaded| ==> unloaded[k] == (order[k] in old(resident))
        decreases |order| - |unloaded|
      {
        var k := |unloaded|;
        assert order[..k + 1] == order[..k] + [order[k]];
        assert order[k] !in order[..k];
        unloaded := unloaded + [order[k] in resident];
        resident := resident - {order[k]};
      }
      assert order[..|order|] == order;
    }

    /** Every run of boot and admin requests, each against the disk as it then stands. `states` are
        the resident sets after boot and after each request: each keeps the ceiling and each follows
        from the one before as its request demands. */
    method Serve(bootIndex: Index, roots: seq<Name>, explicit: bool, bootFaults: nat -> Faults, requests: seq<Request>)
      returns (started: bool, states: seq<set<Name>>, outcomes: seq<seq<LoadOutcome>>, ghost tries: seq<Try>)
      requires resident == {}
      modifies this
      ensures Valid()
      ensures |outcomes| + 1 == |states| && states[|states| - 1] == resident
      ensures |outcomes| == if started then |requests| else 0
      ensures forall k :: 0 <= k < |states| ==> |states[k]| <= ceiling
      ensures started <==> Bootable(bootIndex, roots, ceiling) && (explicit ==> Answered(tries, false) == [])
      ensures Tried(bootIndex, roots, bootFaults, tries) && states[0] == After(tries)
      ensures forall n :: n in states[0] ==> Reachable(bootIndex, roots, n) && Resolvable(bootIndex, n)
      ensures forall k :: 0 <= k < |outcomes| ==> Answers(allowed, ceiling, requests[k], states[k], states[k + 1], outcomes[k])
    {
      hide Reachable, Resolvable, Answers, Bootable, Answered, Tried, After;
      var loaded, failed;
      started, loaded, failed, tries := Boot(bootIndex, roots, explicit, bootFaults);
      if started {
        states, outcomes := ServeAll(requests);
      } else {
        states, outcomes := [resident], [];
      }
    }

    method ServeAll(requests: seq<Request>) returns (states: seq<set<Name>>, outcomes: seq<seq<LoadOutcome>>)
      requires Valid()
      modifies this
      ensures Valid()
      ensures |outcomes| == |requests| && |states| == |requests| + 1
      ensures states[0] == old(resident) && states[|requests|] == resident
      ensures forall k :: 0 <= k < |states| ==> |states[k]| <= ceiling
      ensures forall k :: 0 <= k < |outcomes| ==> Answers(allowed, ceiling, requests[k], states[k], states[k + 1], outcomes[k])
    {
      hide Answers;
      states, outcomes := [resident], [];
      while |outcomes| < |requests|
        invariant |outcomes| <= |requests| && Valid()
        invariant |states| == |outcomes| + 1 && states[0] == old(resident) && states[|outcomes|] == resident
        invariant forall k :: 0 <= k < |states| ==> |states[k]| <= ceiling
        invariant forall k :: 0 <= k < |outcomes| ==> Answers(allowed, ceiling, requests[k], states[k], states[k + 1], outcomes[k])
        decreases |requests| - |outcomes|
      {
        var outcome := ServeOne(requests[|outcomes|]);
        states, outcomes := states + [resident], outcomes + [outcome];
      }
    }

    method ServeOne(request: Request) returns (outcome: seq<LoadOutcome>)
      requires Valid()
      modifies this
      ensures Valid() && Answers(allowed, ceiling, request, old(resident), resident, outcome)
    {
      match request {
        case Load(index, names, faults) => outcome := LoadModels(index, names, faults);
        case Unload(index, names) =>
          var _, _ := UnloadModels(index, names);
          outcome := [];
      }
    }
  }

  predicate Listed(allowed: seq<Name>, name: Name) { allowed == [] || name in allowed }

  /** One load takes the resident set from `before` to `after`. Each refusal has its exact reason and
      changes nothing; a name the engine is asked to load has an enabled closure that fits. */
  ghost predicate LoadsOne(allowed: seq<Name>, ceiling: nat, index: Index, faults: Faults, name: Name,
                           before: set<Name>, after: set<Name>, outcome: LoadOutcome)
  {
    && (outcome.NotInConfiguredList? <==> allowed != [] && name !in allowed)
    && (outcome.NotOnDisk? <==> Listed(allowed, name) && (name !in index || index[name] == []))
    && (outcome.MultipleBackends? <==> Listed(allowed, name) && name in index && |index[name]| > 1)
    && (outcome.BrokenDescriptor? <==>
          Listed(allowed, name) && name in index && |index[name]| == 1 && index[name][0].Unreadable?)
    && (outcome.DeactivatedDescriptor? <==>
          && Listed(allowed, name) && name in index && |index[name]| == 1
          && index[name][0].Readable? && !index[name][0].descriptor.enabled)
    && (outcome.AlreadyLoaded? <==> Listed(allowed, name) && OneEnabledDescriptor(index, name) && name in before)
    && (Preflighted(ceiling, index, faults, name, before, outcome) <==>
          Listed(allowed, name) && OneEnabledDescriptor(index, name) && name !in before)
    && Changes(index, faults, name, before, after, outcome)
  }

  /** What an outcome says once the preflight is reached: refused exactly when the name is not loadable;
      over the ceiling exactly when its closure and what is resident are; otherwise loaded exactly when all
      that has to be loaded works. */
  ghost predicate Preflighted(ceiling: nat, index: Index, faults: Faults, name: Name, before: set<Name>, outcome: LoadOutcome) {
    match outcome
    case PreflightRefused => !Loadable(index, name)
    case OverCeiling(would) => would > ceiling && Loadable(index, name) && Makes(index, name, before, would)
    case Loaded =>
      Loadable(index, name) && MakesAtMost(index, name, before, ceiling) && AllWorks(index, faults, before, name)
    case EngineFailed =>
      Loadable(index, name) && MakesAtMost(index, name, before, ceiling) && !AllWorks(index, faults, before, name)
    case _ => false
  }

  ghost predicate MakesAtMost(index: Index, name: Name, resident: set<Name>, ceiling: nat) {
    exists count: nat :: count <= ceiling && Makes(index, name, resident, count)
  }

  /** The part of it that is about the resident set. */
  ghost predicate Changes(index: Index, faults: Faults, name: Name, before: set<Name>, after: set<Name>, outcome: LoadOutcome) {
    && !outcome.ExceededDespitePreflight?
    && (outcome.Loaded? || outcome.AlreadyLoaded? ==> name in after)
    && before <= after
    && (forall n :: n in after - before ==> Reachable(index, [name], n) && Enabled(index, n))
    && (Refusal(outcome) ==> after == before)
    && (!Refusal(outcome) ==> EngineLoads(index, faults, before, name, outcome.Loaded?, after))
  }

  /** Each name of a list is loaded, in turn, from the state the names before it left. */
  ghost predicate InTurn(allowed: seq<Name>, ceiling: nat, index: Index, faults: nat -> Faults, names: seq<Name>,
                         states: seq<set<Name>>, outcomes: seq<LoadOutcome>)
  {
    && |outcomes| == |names| && |states| == |names| + 1
    && forall k :: 0 <= k < |names| ==>
         LoadsOne(allowed, ceiling, index, faults(k), names[k], states[k], states[k + 1], outcomes[k])
  }

  ghost predicate Loads(allowed: seq<Name>, ceiling: nat, index: Index, faults: nat -> Faults, names: seq<Name>,
                        before: set<Name>, after: set<Name>, outcomes: seq<LoadOutcome>)
  {
    exists states ::
      InTurn(allowed, ceiling, index, faults, names, states, outcomes) && states[0] == before && states[|names|] == after
  }

  /** What a list of loads does as a whole: never past the ceiling; what was loaded is resident;
      additions are enabled and reached from the list; refusals alone change nothing. */
  ghost predicate Adds(index: Index, names: seq<Name>, before: set<Name>, after: set<Name>, outcomes: seq<LoadOutcome>) {
    && |outcomes| == |names|
    && (forall k :: 0 <= k < |outcomes| ==> !outcomes[k].ExceededDespitePreflight?)
    && before <= after
    && (forall k :: 0 <= k < |names| && (outcomes[k].Loaded? || outcomes[k].AlreadyLoaded?) ==> names[k] in after)
    && (forall n :: n in after - before ==> Reachable(index, names, n) && Enabled(index, n))
    && ((forall k :: 0 <= k < |outcomes| ==> Refusal(outcomes[k])) ==> after == before)
  }

  lemma NothingLoads(allowed: seq<Name>, ceiling: nat, index: Index, faults: nat -> Faults, resident: set<Name>)
    ensures Loads(allowed, ceiling, index, faults, [], resident, resident, [])
    ensures Adds(index, [], resident, resident, [])
  {
    assert InTurn(allowed, ceiling, index, faults, [], [resident], []);
  }

  lemma LoadsOneMore(allowed: seq<Name>, ceiling: nat, index: Index, faults: nat -> Faults, names: seq<Name>, name: Name, first: set<Name>,
                     before: set<Name>, after: set<Name>, outcomes: seq<LoadOutcome>, outcome: LoadOutcome)
    requires Loads(allowed, ceiling, index, faults, names, first, before, outcomes)
    requires LoadsOne(allowed, ceiling, index, faults(|outcomes|), name, before, after, outcome)
    ensures Loads(allowed, ceiling, index, faults, names + [name], first, after, outcomes + [outcome])
  {
    hide LoadsOne;
    var states :| InTurn(allowed, ceiling, index, faults, names, states, outcomes) && states[0] == first && states[|names|] == before;
    assert InTurn(allowed, ceiling, index, faults, names + [name], states + [after], outcomes + [outcome]);
  }

  lemma AddsOneMore(allowed: seq<Name>, ceiling: nat, index: Index, faults: nat -> Faults, names: seq<Name>, name: Name, first: set<Name>,
                    before: set<Name>, after: set<Name>, outcomes: seq<LoadOutcome>, outcome: LoadOutcome)
    requires Adds(index, names, first, before, outcomes)
    requires LoadsOne(allowed, ceiling, index, faults(|outcomes|), name, before, after, outcome)
    ensures Adds(index, names + [name], first, after, outcomes + [outcome])
  {
    hide Reachable, Enabled, Preflighted, OneEnabledDescriptor, Listed, EngineLoads;
    var more, all := names + [name], outcomes + [outcome];
    forall n | n in after - first ensures Reachable(index, more, n) && Enabled(index, n) {
      if n in before {
        FewerRootsReachLess(index, names, more, n);
      } else {
        FewerRootsReachLess(index, [name], more, n);
      }
    }
    if forall k :: 0 <= k < |all| ==> Refusal(all[k]) {
      assert forall k :: 0 <= k < |outcomes| ==> outcomes[k] == all[k];
      assert all[|outcomes|] == outcome;
    }
  }

  /** One request takes the resident set from `before` to `after`. */
  ghost predicate Answers(allowed: seq<Name>, ceiling: nat, request: Request,
                          before: set<Name>, after: set<Name>, outcome: seq<LoadOutcome>)
  {
    match request
    case Load(index, names, faults) =>
      Loads(allowed, ceiling, index, faults, names, before, after, outcome) && Adds(index, names, before, after, outcome)
    case Unload(_, names) => after == before - Elements(names) && outcome == []
  }

  /** Direct dependencies of the requested names whose single descriptor can be read. */
  function RequestDependencies(index: Index, names: seq<Name>): map<Name, seq<Name>> {
    map n | n in names && n in index && |index[n]| == 1 && index[n][0].Readable? :: index[n][0].descriptor.dependencies
  }

  predicate ListsOther(index: Index, a: Name, b: Name) { a != b && Lists(index, a, b) }

  /** No name stands after one its descriptor lists. */
  predicate NoneListedLater(index: Index, order: seq<Name>) {
    forall i, j :: 0 <= i < j < |order| ==> !ListsOther(index, order[j], order[i])
  }

  predicate ListChain(index: Index, names: seq<Name>, p: seq<Name>) {
    && |p| >= 2 && (forall i :: 0 <= i < |p| ==> p[i] in names)
    && forall i :: 0 <= i < |p| - 1 ==> ListsOther(index, p[i], p[i + 1])
  }

  ghost predicate ListedInCircle(index: Index, names: seq<Name>) {
    exists p :: ListChain(index, names, p) && p[0] == p[|p| - 1]
  }

  /** Along any chain of descriptors the order runs forward. */
  ghost predicate ChainsRunForward(index: Index, names: seq<Name>, order: seq<Name>) {
    forall p, i, j ::
      ListChain(index, names, p) && 0 <= i < |order| && 0 <= j < |order| && order[i] == p[0] && order[j] == p[|p| - 1] ==> i < j
  }

  /** Among the names asked for, the dependencies recorded are the ones the descriptors list. */
  lemma RecordsWhatIsListed(index: Index, names: seq<Name>, a: Name, b: Name)
    requires a in names
    ensures UnloadOrder.DependsOn(RequestDependencies(index, names), a, b) <==> ListsOther(index, a, b)
  {
  }

  lemma ChainIsListed(index: Index, names: seq<Name>, p: seq<Name>)
    ensures UnloadOrder.Chain(RequestDependencies(index, names), names, p) <==> ListChain(index, names, p)
  {
    hide RequestDependencies, UnloadOrder.DependsOn, ListsOther;
    if forall i :: 0 <= i < |p| ==> p[i] in names {
      forall i | 0 <= i < |p| - 1
        ensures UnloadOrder.DependsOn(RequestDependencies(index, names), p[i], p[i + 1]) <==> ListsOther(index, p[i], p[i + 1])
      {
        RecordsWhatIsListed(index, names, p[i], p[i + 1]);
      }
    }
  }

  lemma CircleIsCycle(index: Index, names: seq<Name>)
    ensures UnloadOrder.Cyclic(RequestDependencies(index, names), names) <==> ListedInCircle(index, names)
  {
    hide RequestDependencies, UnloadOrder.Chain, ListChain;
    forall p ensures UnloadOrder.Chain(RequestDependencies(index, names), names, p) <==> ListChain(index, names, p) {
      ChainIsListed(index, names, p);
    }
  }

  lemma DependentsGoFirst(index: Index, names: seq<Name>, order: seq<Name>)
    requires order == UnloadOrder.Ordered(RequestDependencies(index, names), UnloadOrder.Dedup(names))
    ensures NoneListedLater(index, order) <==> !ListedInCircle(index, names)
    ensures !ListedInCircle(index, names) ==> ChainsRunForward(index, names, order)
  {
    hide RequestDependencies, UnloadOrder.Ordered, UnloadOrder.Dedup, UnloadOrder.Cyclic, ListedInCircle;
    var deps := RequestDependencies(index, names);
    CircleIsCycle(index, names);
    UnloadOrder.DependentsFirstIffAcyclic(names, deps);
    UnloadOrder.OrderIsPermutation(names, deps);
    LaterIsListed(index, names, order);
    if !ListedInCircle(index, names) {
      hide ListChain, UnloadOrder.Chain;
      forall p, i, j |
        ListChain(index, names, p) && 0 <= i < |order| && 0 <= j < |order| && order[i] == p[0] && order[j] == p[|p| - 1]
        ensures i < j
      {
        ChainIsListed(index, names, p);
        UnloadOrder.TransitiveDependentsFirst(names, deps, p);
      }
    }
  }

  lemma LaterIsListed(index: Index, names: seq<Name>, order: seq<Name>)
    requires forall n :: n in order ==> n in names
    ensures UnloadOrder.DependentsFirst(RequestDependencies(index, names), order) <==> NoneListedLater(index, order)
  {
    hide RequestDependencies, UnloadOrder.DependsOn, ListsOther;
    forall i, j | 0 <= i < j < |order|
      ensures UnloadOrder.DependsOn(RequestDependencies(index, names), order[j], order[i]) <==> ListsOther(index, order[j], order[i])
    {
      assert order[j] in order;
      RecordsWhatIsListed(index, names, order[j], order[i]);
    }
  }

  predicate OneEnabledDescriptor(index: Index, n: Name) {
    n in index && |index[n]| == 1 && index[n][0].Readable? && index[n][0].descriptor.enabled
  }

  lemma Counts(index: Index, name: Name, resident: set<Name>, planned: set<Name>)
    requires forall n :: n in planned <==> Reachable(index, [name], n)
    ensures Makes(index, name, resident, |resident| + |planned - resident|)
  {
    hide Reachable;
    assert resident + planned == resident + (planned - resident);
  }

  lemma PlaceOf(order: seq<Name>, n: Name) returns (at: nat)
    requires n in Elements(order)
    ensures at < |order| && order[at] == n
  {
    at :| 0 <= at < |order| && order[at] == n;
  }

  lemma PlannedIsClosure(index: Index, roots: seq<Name>, ceiling: nat, c: Closure)
    requires Exact(index, roots, ceiling, c)
    ensures |c.planned| <= ceiling
    ensures forall n :: n in c.planned <==> Reachable(index, roots, n)
    ensures forall n :: n in c.planned ==> Resolvable(index, n)
  {
    hide Reachable, Resolvable;
  }

  lemma PrefixGrows(order: seq<Name>, i: nat, j: nat)
    requires i <= j <= |order|
    ensures Elements(order[..i]) <= Elements(order[..j])
  {
    assert forall k :: 0 <= k < i ==> order[..i][k] == order[..j][k];
  }

  lemma PrefixNext(order: seq<Name>, at: nat)
    requires at < |order|
    ensures Elements(order[..at + 1]) == Elements(order[..at]) + {order[at]}
  {
    assert order[..at + 1] == order[..at] + [order[at]];
  }

  lemma PrefixLacks(order: seq<Name>, at: nat)
    requires Distinct(order) && at < |order|
    ensures order[at] !in Elements(order[..at])
  {
  }

  lemma DependencyPlace(index: Index, order: seq<Name>, at: nat, d: Name) returns (earlier: nat)
    requires LoadOrder(index, order) && at < |order| && d in Deps(index, order[at])
    ensures earlier < at && order[earlier] == d
  {
    assert d in order[..at];
    earlier :| 0 <= earlier < at && order[..at][earlier] == d;
  }

  /** One dependency tried on behalf of `name`. */
  lemma DependencyLoaded(index: Index, faults: Faults, before: set<Name>, name: Name, middle: set<Name>, d: Name,
                         after: set<Name>, ok: bool)
    requires Grown(index, faults, before, name, middle) && EngineLoads(index, faults, middle, d, ok, after)
    requires name !in before && name !in after && d in Deps(index, name)
    ensures Grown(index, faults, before, name, after) && middle <= after && (ok ==> d in after)
    ensures !ok ==> EngineLoads(index, faults, before, name, false, after)
  {
    hide Needs, Works, Deps;
    GrownThrough(index, faults, before, name, middle, d, after);
    if !ok {
      var broken := BrokenBelow(index, faults, before, name, d, middle);
      LoadFails(index, faults, before, name, after, broken);
    }
  }

  lemma OkIfAllWorks(index: Index, faults: Faults, before: set<Name>, name: Name, ok: bool, after: set<Name>)
    requires EngineLoads(index, faults, before, name, ok, after)
    ensures before <= after && (ok <==> name in after) && (ok <==> AllWorks(index, faults, before, name))
  {
    hide AllWorks;
  }

  lemma PrefixElements(order: seq<Name>, k: nat)
    requires k <= |order|
    ensures Elements(order[..k]) <= Elements(order)
  {
  }

  lemma RootsAreReachable(index: Index, roots: seq<Name>, i: nat)
    requires i < |roots|
    ensures Reachable(index, roots, roots[i])
  {
    assert PathFrom(index, roots, [roots[i]]);
  }
}

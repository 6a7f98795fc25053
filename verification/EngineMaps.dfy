/** The engine object itself: publication, rollback and unload, each critical section proved to be
    the corresponding atomic step of the lifecycle state machine. */
module EngineMaps {
  import opened Names
  import opened ModelResolver
  import opened Lifecycle

  /** The pools of a map in some iteration order. */
  method ValuesOf(models: map<Name, Config>) returns (values: seq<Config>)
    ensures Elements(values) == models.Values
  {
    values := [];
    var rest := models;
    while rest != map[]
      invariant Elements(values) + rest.Values == models.Values
      decreases |rest|
    {
      var n :| n in rest;
      assert rest.Values == {rest[n]} + (rest - {n}).Values by { ValuesWithout(rest, n); }
      values := values + [rest[n]];
      rest := rest - {n};
    }
  }

  lemma ValuesWithout(m: map<Name, Config>, n: Name)
    requires n in m
    ensures m.Values == {m[n]} + (m - {n}).Values
  {
    forall c | c in m.Values ensures c in {m[n]} + (m - {n}).Values {
      var k :| k in m && m[k] == c;
      if k != n { assert (m - {n})[k] == c; }
    }
    forall c | c in (m - {n}).Values ensures c in m.Values {
      var k :| k in m - {n} && (m - {n})[k] == c;
      assert m[k] == c;
    }
  }

  class InferenceEngine {
    var models: map<Name, Config>
    var executors: set<Name>
    var paths: set<Name>
    const resolver: ModelResolver

    constructor ()
      ensures fresh(resolver) && models == map[] && executors == {} && paths == {}
      ensures Index() == Resolver(map[], map[])
    {
      models, executors, paths := map[], {}, {};
      resolver := new ModelResolver();
    }

    function Index(): Resolver
      reads this, resolver
    {
      Resolver(resolver.embedIndex, resolver.convertIndex)
    }

    /** The object holds the maps and the resolver of machine state `s`. */
    ghost predicate Is(s: State)
      reads this, resolver
    {
      models == s.models && executors == s.executors && paths == s.paths && Index() == s.resolver
    }

    predicate IsModelReady(name: Name)
      reads this
    {
      name in models && name in executors
    }

    /** Rebuild the resolver from the pools now registered. */
    method RebuildIndex()
      modifies resolver
      ensures Rebuilt(models, Index())
    {
      var configs := ValuesOf(models);
      resolver.Rebuild(configs);
    }

    /** First write of a publication: the model's directory. */
    method RecordPath(ghost s: State, ghost t: TaskId, name: Name)
      requires Is(s) && At(s, t).Prepared? && t in s.tasks && s.tasks[t].name == name
      modifies this
      ensures Can(s, Prepare(t, true)) && Is(Apply(s, Prepare(t, true)))
      ensures paths == old(paths) + {name} && models == old(models) && executors == old(executors)
    {
      paths := paths + {name};
    }

    /** Second write: the pool, which arms the rollback guard. */
    method RecordPool(ghost s: State, ghost t: TaskId, name: Name, config: Config)
      requires Is(s) && At(s, t).PathPublished? && t in s.tasks && s.tasks[t].name == name && s.tasks[t].config == config
      modifies this
      ensures Can(s, Step.PublishPool(t)) && Is(Apply(s, Step.PublishPool(t)))
      ensures models == old(models)[name := config] && paths == old(paths) && executors == old(executors)
    {
      models := models[name := config];
    }

    /** Third write, after the build: the executor. */
    method RecordExecutor(ghost s: State, ghost t: TaskId, name: Name)
      requires Is(s) && At(s, t).Published? && t in s.tasks && s.tasks[t].name == name
      modifies this
      ensures Can(s, Build(t, true)) && Is(Apply(s, Build(t, true)))
      ensures executors == old(executors) + {name} && models == old(models) && paths == old(paths)
    {
      executors := executors + {name};
    }

    /** The check that nothing unloaded the model meanwhile: one read of each map. */
    method Confirm(ghost s: State, ghost t: TaskId, name: Name) returns (ready: bool, ghost s': State)
      requires Is(s) && At(s, t).ExecutorPublished? && t in s.tasks && s.tasks[t].name == name
      ensures Is(s') && s'.tasks.Keys == s.tasks.Keys && NameOf(s', t) == name
      ensures s' == if name in models then Apply(Apply(s, Look(t)), LookAgain(t)) else Apply(s, Look(t))
      ensures ready <==> IsModelReady(name)
      ensures At(s', t) == if ready then Confirmed else RollingPool
    {
      hide Apply;
      LookMoves(s, t);
      s' := Apply(s, Look(t));
      ready := name in models;
      if ready {
        LookAgainMoves(s', t);
        s' := Apply(s', LookAgain(t));
        ready := name in executors;
      }
    }

    /** The whole gated region. `pooled` is whether the pool can be created, `built` whether the executor
        builds, and `unloaded` whether the model is unloaded while it builds. The steps taken are the
        machine's. On success the model is in all three maps and the resolver is rebuilt; without a pool
        nothing changes; otherwise the model is in none of the maps and the resolver is rebuilt. */
    method Publish(name: Name, config: Config, pooled: bool, unloaded: bool, built: bool, ghost s: State, ghost t: TaskId)
      returns (ok: bool, ghost run: seq<State>)
      requires Is(s) && At(s, t).Prepared? && t in s.tasks && s.tasks[t].name == name && s.tasks[t].config == config
      modifies this, resolver
      ensures ok <==> pooled && built && !unloaded
      ensures run != [] && Trace(run, s) && Is(run[|run| - 1])
      ensures At(run[|run| - 1], t) == if ok then Committed else if pooled then RolledBack else Leaving(false)
      ensures ok ==> name in models && name in executors && name in paths && Rebuilt(models, Index())
      ensures !pooled ==> models == s.models && executors == s.executors && paths == s.paths && Index() == s.resolver
      ensures !ok && pooled ==> name !in models && name !in executors && name !in paths && Rebuilt(models, Index())
    {
      hide Rebuilt, Can, Apply, Trace, Next;
      if !pooled {
        PrepareFails(s, t);
        ghost var left := Apply(s, Prepare(t, false));
        TraceStart(s);
        TraceOn([s], s, left);
        return false, [s] + [left];
      }
      ghost var pool;
      run, pool := PublishPool(name, config, unloaded, s, t);
      if built {
        ok, run := FinishBuilt(run, s, pool, t, name);
      } else {
        ok := false;
        run := FinishFailed(run, s, pool, t, name);
      }
    }

    /** Directory and pool, and then perhaps an unload of both. */
    method PublishPool(name: Name, config: Config, unloaded: bool, ghost s: State, ghost t: TaskId)
      returns (ghost run: seq<State>, ghost pool: State)
      requires Is(s) && At(s, t).Prepared? && t in s.tasks && s.tasks[t].name == name && s.tasks[t].config == config
      modifies this, resolver
      ensures Is(pool) && At(pool, t).Published? && t in pool.tasks && pool.tasks[t].name == name
      ensures run != [] && Trace(run, s) && run[|run| - 1] == pool
      ensures name in models <==> !unloaded
      ensures name in models ==> name in paths
    {
      hide Rebuilt, Can, Apply, Trace, Next;
      RecordPath(s, t, name);
      ghost var path := Apply(s, Prepare(t, true));
      PrepareMoves(s, t);
      TraceStart(s);
      TraceOn([s], s, path);
      RecordPool(path, t, name, config);
      pool := Apply(path, Step.PublishPool(t));
      PoolMoves(path, t);
      run := [s] + [path] + [pool];
      TraceOn([s] + [path], s, pool);
      if unloaded {
        var removed := UnloadModel(name, pool);
        ghost var without := Apply(pool, Unload(name, Index()));
        UnloadMoves(pool, name, Index(), t);
        TraceOn(run, s, without);
        run, pool := run + [without], without;
      }
    }

    method FinishFailed(ghost before: seq<State>, ghost s: State, ghost pool: State, ghost t: TaskId, name: Name)
      returns (ghost run: seq<State>)
      requires Is(pool) && At(pool, t).Published? && t in pool.tasks && pool.tasks[t].name == name
      requires before != [] && Trace(before, s) && before[|before| - 1] == pool
      modifies this, resolver
      ensures run != [] && Trace(run, s) && Is(run[|run| - 1]) && At(run[|run| - 1], t) == RolledBack
      ensures name !in models && name !in executors && name !in paths && Rebuilt(models, Index())
    {
      hide Rebuilt, Can, Apply, Trace, Next, Rolled;
      ghost var failed := Apply(pool, Build(t, false));
      BuildMoves(pool, t);
      TraceOn(before, s, failed);
      ghost var rolled := DropRollback(true, failed, t, name);
      RolledMaps(failed, t);
      run := RolledTrace(before + [failed], s, failed, t, Index());
    }

    method FinishBuilt(ghost before: seq<State>, ghost s: State, ghost pool: State, ghost t: TaskId, name: Name)
      returns (ok: bool, ghost run: seq<State>)
      requires Is(pool) && At(pool, t).Published? && t in pool.tasks && pool.tasks[t].name == name
      requires before != [] && Trace(before, s) && before[|before| - 1] == pool
      requires name in models ==> name in paths
      modifies this, resolver
      ensures ok <==> name in old(models)
      ensures run != [] && Trace(run, s) && Is(run[|run| - 1])
      ensures At(run[|run| - 1], t) == if ok then Committed else RolledBack
      ensures ok ==> name in models && name in executors && name in paths && Rebuilt(models, Index())
      ensures !ok ==> name !in models && name !in executors && name !in paths && Rebuilt(models, Index())
    {
      hide Rebuilt, Can, Apply, Trace, Next, Rolled;
      RecordExecutor(pool, t, name);
      ghost var executor := Apply(pool, Build(t, true));
      BuildMoves(pool, t);
      TraceOn(before, s, executor);
      ghost var looked;
      ok, looked := Confirm(executor, t, name);
      run := LookedTrace(before + [executor], s, executor, t);
      if ok {
        RebuildIndex();
        ghost var committed := Apply(looked, RebuildResolver(t, Index()));
        CommitMoves(looked, t, Index());
        TraceOn(run, s, committed);
        run := run + [committed];
      } else {
        ghost var rolled := DropRollback(true, looked, t, name);
        RolledMaps(looked, t);
        run := RolledTrace(run, s, looked, t, Index());
      }
    }

    /** Unloading is one atomic step of the machine. */
    method UnloadModel(name: Name, ghost s: State) returns (removed: bool)
      requires Is(s)
      modifies this, resolver
      ensures removed <==> name in s.models
      ensures Can(s, Unload(name, Index())) && Is(Apply(s, Unload(name, Index())))
      ensures name !in models && (removed ==> name !in paths && name !in executors)
    {
      hide Rebuilt;
      if name in models {
        models := models - {name};
        executors := executors - {name};
        paths := paths - {name};
        RebuildIndex();
        return true;
      }
      return false;
    }

    /** The drop of the rollback guard of task `t`: nothing when disarmed; when armed, with
        nothing interleaved, exactly the machine's four rollback steps. */
    method DropRollback(armed: bool, ghost s: State, ghost t: TaskId, name: Name) returns (ghost s': State)
      requires Is(s) && t in s.tasks && s.tasks[t].name == name && (armed ==> s.tasks[t].pc.RollingPool?)
      modifies this, resolver
      ensures Is(s')
      ensures !armed ==> s' == s
      ensures armed ==> s' == Apply(Rolled(s, t), RebuildResolver(t, Index())) && Can(Rolled(s, t), RebuildResolver(t, Index()))
      ensures armed ==> name !in models && name !in executors && name !in paths
      ensures armed ==> models == Rolled(s, t).models && Rebuilt(models, Index())
    {
      hide Rebuilt;
      s' := s;
      if !armed {
        return;
      }
      models := models - {name};
      executors := executors - {name};
      paths := paths - {name};
      RolledMaps(s, t);
      RebuildIndex();
      s' := Apply(Rolled(s, t), RebuildResolver(t, Index()));
    }
  }

  // ---- where each step leaves the task ----

  lemma PrepareMoves(s: State, t: TaskId)
    requires At(s, t).Prepared? && t in s.tasks
    ensures var s' := Apply(s, Prepare(t, true));
            Next(s, s') && t in s'.tasks && s'.tasks[t] == s.tasks[t].(pc := PathPublished)
  {
    Moves(s, Prepare(t, true));
  }

  lemma PrepareFails(s: State, t: TaskId)
    requires At(s, t).Prepared? && t in s.tasks
    ensures var s' := Apply(s, Prepare(t, false));
            && Next(s, s') && At(s', t) == Leaving(false)
            && s'.models == s.models && s'.executors == s.executors && s'.paths == s.paths && s'.resolver == s.resolver
  {
    Moves(s, Prepare(t, false));
  }

  lemma UnloadMoves(s: State, name: Name, r: Resolver, t: TaskId)
    requires Can(s, Unload(name, r)) && t in s.tasks
    ensures Next(s, Apply(s, Unload(name, r))) && Apply(s, Unload(name, r)).tasks == s.tasks
  {
    Moves(s, Unload(name, r));
  }

  lemma PoolMoves(s: State, t: TaskId)
    requires At(s, t).PathPublished? && t in s.tasks
    ensures var s' := Apply(s, Step.PublishPool(t));
            Next(s, s') && t in s'.tasks && s'.tasks[t] == s.tasks[t].(pc := Published)
  {
    Moves(s, Step.PublishPool(t));
  }

  lemma BuildMoves(s: State, t: TaskId)
    requires At(s, t).Published? && t in s.tasks
    ensures var s' := Apply(s, Build(t, true));
            Next(s, s') && t in s'.tasks && s'.tasks[t] == s.tasks[t].(pc := ExecutorPublished)
    ensures var s' := Apply(s, Build(t, false));
            && Next(s, s') && t in s'.tasks && s'.tasks[t] == s.tasks[t].(pc := RollingPool)
            && s'.models == s.models && s'.executors == s.executors && s'.paths == s.paths && s'.resolver == s.resolver
  {
    Moves(s, Build(t, true));
    Moves(s, Build(t, false));
  }

  /** A read of a map moves the task and nothing else. */
  ghost predicate OnlyMoved(s: State, s': State, t: TaskId) {
    && s'.models == s.models && s'.executors == s.executors && s'.paths == s.paths && s'.resolver == s.resolver
    && s'.tasks.Keys == s.tasks.Keys && t in s.tasks && s'.tasks[t] == s.tasks[t].(pc := s'.tasks[t].pc)
  }

  lemma LookMoves(s: State, t: TaskId)
    requires At(s, t).ExecutorPublished? && t in s.tasks
    ensures var s' := Apply(s, Look(t));
            OnlyMoved(s, s', t) && At(s', t) == if NameOf(s, t) in s.models then ConfirmSawPool else RollingPool
  {
  }

  lemma LookAgainMoves(s: State, t: TaskId)
    requires At(s, t).ConfirmSawPool? && t in s.tasks
    ensures var s' := Apply(s, LookAgain(t));
            OnlyMoved(s, s', t) && At(s', t) == if NameOf(s, t) in s.executors then Confirmed else RollingPool
  {
  }

  lemma CommitMoves(s: State, t: TaskId, r: Resolver)
    requires At(s, t).Confirmed? && t in s.tasks && Rebuilt(s.models, r)
    ensures var s' := Apply(s, RebuildResolver(t, r));
            && Next(s, s') && At(s', t) == Committed && s'.resolver == r
            && s'.models == s.models && s'.executors == s.executors && s'.paths == s.paths
  {
    Moves(s, RebuildResolver(t, r));
  }

  /** The reads of the readiness check, one by one. */
  lemma LookedTrace(before: seq<State>, start: State, s: State, t: TaskId) returns (run: seq<State>)
    requires before != [] && Trace(before, start) && before[|before| - 1] == s && At(s, t).ExecutorPublished? && t in s.tasks
    ensures run != [] && Trace(run, start)
    ensures run[|run| - 1] == if NameOf(s, t) in s.models then Apply(Apply(s, Look(t)), LookAgain(t)) else Apply(s, Look(t))
  {
    hide Apply, Next, Trace;
    var looked := Apply(s, Look(t));
    LookMoves(s, t);
    Moves(s, Look(t));
    TraceOn(before, start, looked);
    run := before + [looked];
    if NameOf(s, t) in s.models {
      Moves(looked, LookAgain(t));
      TraceOn(run, start, Apply(looked, LookAgain(t)));
      run := run + [Apply(looked, LookAgain(t))];
    }
  }

  lemma RollMoves(s: State, t: TaskId)
    requires Rolling(At(s, t)) && t in s.tasks
    ensures var s' := Apply(s, Roll(t));
            Next(s, s') && t in s'.tasks
            && At(s', t) == (if At(s, t).RollingPool? then RollingExecutor else if At(s, t).RollingExecutor? then RollingPath else RollingResolver)
  {
    Moves(s, Roll(t));
  }

  lemma UndoMoves(s: State, t: TaskId, r: Resolver)
    requires At(s, t).RollingResolver? && t in s.tasks && Rebuilt(s.models, r)
    ensures Next(s, Apply(s, RebuildResolver(t, r))) && At(Apply(s, RebuildResolver(t, r)), t) == RolledBack
  {
    Moves(s, RebuildResolver(t, r));
  }

  /** The steps of a rollback, one by one. */
  lemma RolledTrace(before: seq<State>, start: State, s: State, t: TaskId, r: Resolver) returns (run: seq<State>)
    requires before != [] && Trace(before, start) && before[|before| - 1] == s
    requires At(s, t).RollingPool? && t in s.tasks && Rebuilt(Rolled(s, t).models, r)
    ensures run != [] && Trace(run, start) && run[|run| - 1] == Apply(Rolled(s, t), RebuildResolver(t, r))
    ensures At(run[|run| - 1], t) == RolledBack
  {
    hide Apply, Next, Trace, Rebuilt;
    var one := Apply(s, Roll(t));
    var two := Apply(one, Roll(t));
    var three := Apply(two, Roll(t));
    RollMoves(s, t);
    RollMoves(one, t);
    RollMoves(two, t);
    UndoMoves(three, t, r);
    TraceOn(before, start, one);
    TraceOn(before + [one], start, two);
    TraceOn(before + [one] + [two], start, three);
    run := before + [one] + [two] + [three] + [Apply(three, RebuildResolver(t, r))];
    TraceOn(before + [one] + [two] + [three], start, Apply(three, RebuildResolver(t, r)));
  }

  /** The state after the three removals of a rollback. */
  ghost function Rolled(s: State, t: TaskId): State { Apply(Apply(Apply(s, Roll(t)), Roll(t)), Roll(t)) }

  lemma RolledMaps(s: State, t: TaskId)
    requires At(s, t).RollingPool? && t in s.tasks
    ensures var r, n := Rolled(s, t), s.tasks[t].name;
            && r.models == s.models - {n} && r.executors == s.executors - {n} && r.paths == s.paths - {n}
            && r.resolver == s.resolver && At(r, t).RollingResolver?
  {
    var one := Apply(s, Roll(t));
    assert At(one, t) == RollingExecutor && NameOf(one, t) == NameOf(s, t);
    var two := Apply(one, Roll(t));
    assert At(two, t) == RollingPath && NameOf(two, t) == NameOf(s, t);
  }
}

/** Nothing in the lifecycle keeps an undisturbed load from succeeding: from any consistent state with
    the gate free, a load of a model that is not there can run to its end and publish it. */
module LoadCompletes {
  import opened Names
  import opened ModelResolver
  import opened Lifecycle

  /** The machine can go from `s` to `s'`. */
  ghost predicate Leads(s: State, s': State) {
    exists run :: Trace(run, s) && run[|run| - 1] == s'
  }

  lemma LeadsNowhere(s: State)
    ensures Leads(s, s)
  {
    TraceStart(s);
    assert [s][|[s]| - 1] == s;
  }

  lemma LeadsOn(s: State, middle: State, step: Step)
    requires Leads(s, middle) && Can(middle, step)
    ensures Leads(s, Apply(middle, step))
  {
    hide Can, Apply, Next;
    var run :| Trace(run, s) && run[|run| - 1] == middle;
    Moves(middle, step);
    TraceOn(run, s, Apply(middle, step));
    var more := run + [Apply(middle, step)];
    assert more[|more| - 1] == Apply(middle, step);
  }

  // ---- an index for any pools ----

  lemma {:induction false} LastOf(configs: set<Config>) returns (last: Config)
    requires configs != {}
    ensures last in configs && forall c :: c in configs ==> !Before(last.name, c.name)
    decreases |configs|
  {
    hide Before;
    var c :| c in configs;
    var rest := configs - {c};
    if rest == {} {
      assert configs == {c};
      BeforeIsStrict(c.name, c.name);
      last := c;
    } else {
      var d := LastOf(rest);
      BeforeIsStrict(c.name, d.name);
      BeforeIsStrict(c.name, c.name);
      if Before(d.name, c.name) {
        last := c;
        forall e | e in configs ensures !Before(c.name, e.name) {
          if e != c && Before(c.name, e.name) { BeforeIsTransitive(d.name, c.name, e.name); }
        }
      } else {
        last := d;
      }
    }
  }

  lemma {:induction false} IndexExists<K(!new)>(configs: set<Config>, key: Config -> Option<K>) returns (index: map<K, Name>)
    ensures IsIndex(configs, key, index)
    decreases |configs|
  {
    hide IsIndex, Before;
    if configs == {} {
      index := map[];
      EmptyIndex(key);
    } else {
      var last := LastOf(configs);
      var rest := IndexExists(configs - {last}, key);
      PutKeepsIndex(configs - {last}, key, rest, last);
      assert configs - {last} + {last} == configs;
      index := Put(key, rest, last);
    }
  }

  lemma ResolverExists(models: map<Name, Config>) returns (r: Resolver)
    ensures Rebuilt(models, r)
  {
    var embed := IndexExists(models.Values, EmbedKey);
    var convert := IndexExists(models.Values, ConvertKey);
    r := Resolver(embed, convert);
  }

  // ---- an undisturbed load, stage by stage ----

  /** Where the load of `name` stands, who holds the gate, and that nothing else of the machine but the
      three maps and the resolver moved. */
  ghost predicate Stands(first: State, s: State, t: TaskId, name: Name, config: Config, pc: Pc, gate: Gate) {
    && s.serialized == first.serialized && s.gate == gate && Leads(first, s)
    && s.tasks == first.tasks[t := Task(name, config, pc)]
  }

  predicate SameMaps(a: State, b: State) {
    a.models == b.models && a.executors == b.executors && a.paths == b.paths
  }

  lemma StandsOn(first: State, s: State, t: TaskId, name: Name, config: Config, pc: Pc, gate: Gate, step: Step)
    requires Stands(first, s, t, name, config, pc, gate) && Can(s, step)
    requires !step.Unload? && !step.Spawn? && step.t == t
    ensures Stands(first, Apply(s, step), t, name, config, NewPc(s, step), GateAfter(s, step))
  {
    LeadsOn(first, s, step);
    hide Can, Leads, NewPc, GateAfter, ModelsAfter, ExecutorsAfter, PathsAfter, JobsAfter;
    assert first.tasks[t := Task(name, config, pc)][t := Task(name, config, NewPc(s, step))]
           == first.tasks[t := Task(name, config, NewPc(s, step))];
  }

  /** It looks for its model in vain and reads the descriptor. */
  lemma Reads(first: State, t: TaskId, name: Name, config: Config) returns (s: State)
    requires first.gate.Free? && t !in first.tasks && t !in first.jobs && name !in first.models && config.enabled
    ensures Stands(first, s, t, name, config, Depending, Free) && SameMaps(first, s) && s.jobs == first.jobs
  {
    hide Rebuilt, Leads;
    s := Begins(first, t, name, config);
    StandsOn(first, s, t, name, config, Start, Free, Look(t));
    s := Apply(s, Look(t));
    StandsOn(first, s, t, name, config, Reading, Free, Read(t, true));
    s := Apply(s, Read(t, true));
  }

  /** It loads its dependencies and asks for the gate, with its template made before unless loads are
      serialized. */
  lemma Asks(first: State, s: State, t: TaskId, name: Name, config: Config) returns (s': State)
    requires Stands(first, s, t, name, config, Depending, Free) && SameMaps(first, s) && config.name == name
    ensures Stands(first, s', t, name, config, Waiting, Free) && SameMaps(first, s')
  {
    hide Rebuilt, Leads;
    StandsOn(first, s, t, name, config, Depending, Free, Depended(t, true));
    s' := Apply(s, Depended(t, true));
    if !first.serialized {
      StandsOn(first, s', t, name, config, Instantiating, Free, EndJob(t, true));
      s' := Apply(s', EndJob(t, true));
    }
  }

  lemma Begins(first: State, t: TaskId, name: Name, config: Config) returns (s: State)
    requires t !in first.tasks && t !in first.jobs
    ensures Stands(first, s, t, name, config, Start, first.gate)
    ensures s == first.(tasks := first.tasks[t := Task(name, config, Start)])
  {
    LeadsNowhere(first);
    s := Apply(first, Spawn(t, name, config));
    LeadsOn(first, first, Spawn(t, name, config));
  }

  /** It takes the gate, finds nothing again, and has or makes its template. */
  lemma Prepares(first: State, s: State, t: TaskId, name: Name, config: Config) returns (s': State)
    requires Stands(first, s, t, name, config, Waiting, Free) && SameMaps(first, s) && name !in first.models
    ensures Stands(first, s', t, name, config, Prepared, HeldByTask(t)) && SameMaps(first, s')
  {
    hide Rebuilt, Leads;
    StandsOn(first, s, t, name, config, Waiting, Free, Acquire(t));
    s' := Apply(s, Acquire(t));
    StandsOn(first, s', t, name, config, Rechecking, HeldByTask(t), Look(t));
    s' := Apply(s', Look(t));
    if first.serialized {
      StandsOn(first, s', t, name, config, Instantiable, HeldByTask(t), StartJob(t));
      s' := Apply(s', StartJob(t));
      StandsOn(first, s', t, name, config, Instantiating, HeldByJob(t), EndJob(t, true));
      s' := Apply(s', EndJob(t, true));
    }
  }

  ghost predicate Holds(first: State, s: State, name: Name, config: Config) {
    && s.models == first.models[name := config]
    && s.executors == first.executors + {name} && s.paths == first.paths + {name}
  }

  /** It publishes directory and pool and builds the executor. */
  lemma PublishesAll(first: State, s: State, t: TaskId, name: Name, config: Config) returns (s': State)
    requires Stands(first, s, t, name, config, Prepared, HeldByTask(t)) && SameMaps(first, s)
    ensures Stands(first, s', t, name, config, ExecutorPublished, HeldByTask(t)) && Holds(first, s', name, config)
  {
    hide Rebuilt, Leads;
    StandsOn(first, s, t, name, config, Prepared, HeldByTask(t), Prepare(t, true));
    s' := Apply(s, Prepare(t, true));
    StandsOn(first, s', t, name, config, PathPublished, HeldByTask(t), PublishPool(t));
    s' := Apply(s', PublishPool(t));
    StandsOn(first, s', t, name, config, Published, HeldByTask(t), Build(t, true));
    s' := Apply(s', Build(t, true));
  }

  /** It finds both still there. */
  lemma Confirms(first: State, s: State, t: TaskId, name: Name, config: Config) returns (s': State)
    requires Stands(first, s, t, name, config, ExecutorPublished, HeldByTask(t)) && Holds(first, s, name, config)
    ensures Stands(first, s', t, name, config, Confirmed, HeldByTask(t)) && Holds(first, s', name, config)
  {
    hide Rebuilt, Leads;
    StandsOn(first, s, t, name, config, ExecutorPublished, HeldByTask(t), Look(t));
    s' := Apply(s, Look(t));
    StandsOn(first, s', t, name, config, ConfirmSawPool, HeldByTask(t), LookAgain(t));
    s' := Apply(s', LookAgain(t));
  }

  lemma Commits(first: State, s: State, t: TaskId, name: Name, config: Config) returns (s': State)
    requires Stands(first, s, t, name, config, Confirmed, HeldByTask(t)) && Holds(first, s, name, config)
    ensures Stands(first, s', t, name, config, Done(true), Free) && Holds(first, s', name, config)
    ensures Rebuilt(s'.models, s'.resolver)
  {
    hide Rebuilt, Leads;
    var r := ResolverExists(s.models);
    StandsOn(first, s, t, name, config, Confirmed, HeldByTask(t), RebuildResolver(t, r));
    s' := Apply(s, RebuildResolver(t, r));
    StandsOn(first, s', t, name, config, Committed, HeldByTask(t), Release(t));
    s' := Apply(s', Release(t));
  }

  /** An undisturbed load of an enabled model that is not there can answer success, with exactly that
      model added to the three maps, the resolver rebuilt and the gate free again. */
  lemma LoadCanSucceed(first: State, t: TaskId, name: Name, config: Config) returns (s: State)
    requires first.gate.Free? && t !in first.tasks && t !in first.jobs && name !in first.models
    requires config.enabled && config.name == name
    ensures Leads(first, s) && At(s, t) == Done(true) && s.gate.Free?
    ensures s.models == first.models[name := config]
    ensures s.executors == first.executors + {name} && s.paths == first.paths + {name}
    ensures Rebuilt(s.models, s.resolver)
  {
    hide Rebuilt, Leads;
    s := Reads(first, t, name, config);
    s := Asks(first, s, t, name, config);
    s := Prepares(first, s, t, name, config);
    s := PublishesAll(first, s, t, name, config);
    s := Confirms(first, s, t, name, config);
    s := Commits(first, s, t, name, config);
  }

  /** A load of a model that is there answers success at once and changes nothing else, whoever holds the
      gate. */
  lemma LoadedAnswersAtOnce(first: State, t: TaskId, name: Name, config: Config) returns (s: State)
    requires t !in first.tasks && t !in first.jobs && name in first.models && name in first.executors
    ensures Leads(first, s) && s == first.(tasks := first.tasks[t := Task(name, config, Done(true))])
  {
    hide Rebuilt, Leads;
    s := Begins(first, t, name, config);
    StandsOn(first, s, t, name, config, Start, first.gate, Look(t));
    s := Apply(s, Look(t));
    StandsOn(first, s, t, name, config, SawPool, first.gate, LookAgain(t));
    s := Apply(s, LookAgain(t));
  }

  // ---- a load that is dropped ----

  /** Four rollback steps and the release take an armed load out of the maps and free the gate. */
  lemma RollsBack(first: State, s: State, t: TaskId, name: Name, config: Config) returns (s': State)
    requires Stands(first, s, t, name, config, RollingPool, HeldByTask(t)) && SameMaps(first, s)
    ensures Stands(first, s', t, name, config, RollingResolver, HeldByTask(t))
    ensures s'.models == first.models - {name} && s'.executors == first.executors - {name} && s'.paths == first.paths - {name}
  {
    hide Rebuilt, Leads;
    StandsOn(first, s, t, name, config, RollingPool, HeldByTask(t), Roll(t));
    s' := Apply(s, Roll(t));
    StandsOn(first, s', t, name, config, RollingExecutor, HeldByTask(t), Roll(t));
    s' := Apply(s', Roll(t));
    StandsOn(first, s', t, name, config, RollingPath, HeldByTask(t), Roll(t));
    s' := Apply(s', Roll(t));
  }

  lemma LeavesRolledBack(first: State, s: State, t: TaskId, name: Name, config: Config) returns (s': State)
    requires Stands(first, s, t, name, config, RollingResolver, HeldByTask(t))
    ensures Stands(first, s', t, name, config, Done(false), Free) && SameMaps(s, s') && Rebuilt(s'.models, s'.resolver)
  {
    hide Rebuilt, Leads;
    var r := ResolverExists(s.models);
    StandsOn(first, s, t, name, config, RollingResolver, HeldByTask(t), RebuildResolver(t, r));
    s' := Apply(s, RebuildResolver(t, r));
    StandsOn(first, s', t, name, config, RolledBack, HeldByTask(t), Release(t));
    s' := Apply(s', Release(t));
  }

  /** At every await a caller can be dropped. Before publication that is all; after it, the load can
      then undo all it did and free the gate. */
  lemma DroppedLoadUnwinds(first: State, t: TaskId) returns (s: State)
    requires t in first.tasks && GateInv(first)
    requires var pc := At(first, t); pc.Reading? || pc.Depending? || pc.Instantiating? || pc.Waiting? || pc.Published?
    ensures Leads(first, s) && At(s, t) == Done(false)
    ensures At(first, t) != Published ==> SameMaps(first, s)
    ensures At(first, t) == Published ==>
              var n := NameOf(first, t);
              && s.gate.Free? && Rebuilt(s.models, s.resolver)
              && s.models == first.models - {n} && s.executors == first.executors - {n} && s.paths == first.paths - {n}
  {
    hide Rebuilt, Leads;
    LeadsNowhere(first);
    var task := first.tasks[t];
    assert TaskOk(first, t);
    assert first.tasks[t := task] == first.tasks;
    StandsOn(first, first, t, task.name, task.config, task.pc, first.gate, Cancel(t));
    s := Apply(first, Cancel(t));
    if task.pc.Published? {
      s := RollsBack(first, s, t, task.name, task.config);
      s := LeavesRolledBack(first, s, t, task.name, task.config);
    }
  }

  // ---- a load that fails ----

  /** From inside the gate with nothing published, leaving frees the gate and answers failure. */
  lemma Leaves(first: State, s: State, t: TaskId, name: Name, config: Config) returns (s': State)
    requires Stands(first, s, t, name, config, Leaving(false), HeldByTask(t)) && SameMaps(first, s)
    ensures Stands(first, s', t, name, config, Done(false), Free) && SameMaps(first, s')
  {
    hide Rebuilt, Leads;
    StandsOn(first, s, t, name, config, Leaving(false), HeldByTask(t), Release(t));
    s' := Apply(s, Release(t));
  }

  /** Where a load can fail: the read, a dependency, the template, the pool and the executor. */
  function FailingStep(pc: Pc, t: TaskId): Step {
    match pc
    case Reading => Read(t, false)
    case Depending => Depended(t, false)
    case Instantiating => EndJob(t, false)
    case Prepared => Prepare(t, false)
    case _ => Build(t, false)
  }

  /** At each of these the failure can happen, and the load can then answer it with nothing of its own
      left in the maps. */
  lemma FailingLoadUnwinds(first: State, t: TaskId) returns (s: State)
    requires t in first.tasks && GateInv(first)
    requires var pc := At(first, t); pc.Reading? || pc.Depending? || pc.Instantiating? || pc.Prepared? || pc.Published?
    ensures Can(first, FailingStep(At(first, t), t)) && Leads(first, s) && At(s, t) == Done(false)
    ensures At(first, t) != Published ==> SameMaps(first, s)
    ensures At(first, t) == Published ==>
              var n := NameOf(first, t);
              s.models == first.models - {n} && s.executors == first.executors - {n} && s.paths == first.paths - {n}
  {
    hide Rebuilt, Leads;
    LeadsNowhere(first);
    var task := first.tasks[t];
    assert TaskOk(first, t);
    assert first.tasks[t := task] == first.tasks;
    var step := FailingStep(task.pc, t);
    StandsOn(first, first, t, task.name, task.config, task.pc, first.gate, step);
    s := Apply(first, step);
    if task.pc.Published? {
      s := RollsBack(first, s, t, task.name, task.config);
      s := LeavesRolledBack(first, s, t, task.name, task.config);
    } else if At(s, t).Leaving? {
      s := Leaves(first, s, t, task.name, task.config);
    }
  }

  /** A template that panics ends its load, with the gate free if it held it. */
  lemma PanicEndsLoad(first: State, t: TaskId) returns (s: State)
    requires t in first.tasks && GateInv(first) && At(first, t).Instantiating?
    ensures Leads(first, s) && At(s, t) == Done(false) && SameMaps(first, s) && (first.serialized ==> s.gate.Free?)
  {
    hide Rebuilt, Leads;
    LeadsNowhere(first);
    assert TaskOk(first, t);
    LeadsOn(first, first, PanicJob(t));
    s := Apply(first, PanicJob(t));
  }
}

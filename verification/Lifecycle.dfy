/** The engine's model lifecycle as a state machine: many load tasks, one commit gate,
    optimistic publication, drop-based rollback on failure or cancellation, and
    synchronous unloads that race a build. Every lock acquisition is one step. */
module Lifecycle {
  import opened Names
  import opened ModelResolver

  type TaskId = nat

  /** Who holds the load-commit gate: a load task, or the blocking job a task moved its
      permit into. */
  datatype Gate = Free | HeldByTask(task: TaskId) | HeldByJob(task: TaskId)

  /** Where one `load_model` call stands. */
  datatype Pc =
    | Start            // about to look for its pool
    | SawPool          // found a pool, about to look for its executor
    | Reading          // awaits the descriptor read
    | Depending        // awaits its dependencies
    | Instantiating    // awaits the blocking template instantiation
    | Waiting          // awaits the commit gate
    | Rechecking       // gate held, about to look for its pool again
    | RecheckSawPool   // gate held, found a pool
    | Instantiable     // gate held, not ready, no template yet
    | Prepared         // gate held, template in hand, nothing published
    | PathPublished    // directory recorded
    | Published        // pool recorded, guard armed; awaits the executor build
    | ExecutorPublished // executor recorded, about to look for the pool
    | ConfirmSawPool   // pool still there, about to look for the executor
    | Confirmed        // ready, about to rebuild the resolver
    | Committed        // resolver rebuilt, guard disarmed
    | RollingPool      // armed guard dropped: removes the pool,
    | RollingExecutor  // then the executor,
    | RollingPath      // then the directory,
    | RollingResolver  // then rebuilds the resolver
    | RolledBack       // guard done, gate still held
    | Leaving(ok: bool) // nothing published by this call; gate still held
    | Done(ok: bool)

  datatype Task = Task(name: Name, config: Config, pc: Pc)

  datatype Resolver = Resolver(embed: map<string, Name>, convert: map<(string, string), Name>)

  datatype State = State(
    serialized: bool,             // the `serialized_model_loads` policy
    models: map<Name, Config>,    // pools, each with its template's configuration
    executors: set<Name>,
    paths: set<Name>,
    resolver: Resolver,
    gate: Gate,
    tasks: map<TaskId, Task>,
    jobs: set<TaskId>,            // template instantiations in progress, by the task that spawned them
    indexed: map<Name, Config>    // history: the pools the resolver was last rebuilt from
  )

  ghost predicate Rebuilt(models: map<Name, Config>, r: Resolver) {
    IsIndex(models.Values, EmbedKey, r.embed) && IsIndex(models.Values, ConvertKey, r.convert)
  }

  // ---- steps ----

  datatype Step =
    | Spawn(t: TaskId, name: Name, config: Config)
    | Look(t: TaskId)
    | LookAgain(t: TaskId)
    | Read(t: TaskId, ok: bool)
    | Depended(t: TaskId, ok: bool)
    | Acquire(t: TaskId)
    | StartJob(t: TaskId)
    | EndJob(t: TaskId, ok: bool)
    | PanicJob(t: TaskId)
    | Prepare(t: TaskId, ok: bool)
    | PublishPool(t: TaskId)
    | Build(t: TaskId, ok: bool)
    | RebuildResolver(t: TaskId, r: Resolver)
    | Roll(t: TaskId)
    | Release(t: TaskId)
    | Cancel(t: TaskId)
    | Unload(name: Name, r: Resolver)

  function At(s: State, t: TaskId): Pc {
    if t in s.tasks then s.tasks[t].pc else Done(false)
  }

  /** The awaits a caller can be dropped at. */
  predicate Cancellable(pc: Pc) {
    pc.Reading? || pc.Depending? || pc.Instantiating? || pc.Waiting? || pc.Published?
  }

  /** The calls that read the pool map. */
  predicate Looking(pc: Pc) { pc.Start? || pc.Rechecking? || pc.ExecutorPublished? }

  /** The calls that then read the executor map. */
  predicate LookingAgain(pc: Pc) { pc.SawPool? || pc.RecheckSawPool? || pc.ConfirmSawPool? }

  predicate Rolling(pc: Pc) { pc.RollingPool? || pc.RollingExecutor? || pc.RollingPath? }

  ghost predicate Can(s: State, step: Step) {
    match step
    case Spawn(t, name, config) => t !in s.tasks && t !in s.jobs
    case Look(t) => Looking(At(s, t))
    case LookAgain(t) => LookingAgain(At(s, t))
    case Read(t, ok) => At(s, t).Reading? && (ok ==> s.tasks[t].config.enabled)
    case Depended(t, ok) => At(s, t).Depending? && (ok ==> s.tasks[t].config.name == s.tasks[t].name)
    case Acquire(t) => At(s, t).Waiting? && s.gate.Free?
    case StartJob(t) => At(s, t).Instantiable?
    case EndJob(t, ok) => t in s.jobs
    case PanicJob(t) => t in s.jobs
    case Prepare(t, ok) => At(s, t).Prepared?
    case PublishPool(t) => At(s, t).PathPublished?
    case Build(t, ok) => At(s, t).Published?
    case RebuildResolver(t, r) => (At(s, t).Confirmed? || At(s, t).RollingResolver?) && Rebuilt(s.models, r)
    case Roll(t) => Rolling(At(s, t))
    case Release(t) => At(s, t).Committed? || At(s, t).RolledBack? || At(s, t).Leaving?
    case Cancel(t) => Cancellable(At(s, t))
    case Unload(name, r) => name in s.models ==> Rebuilt(s.models - {name}, r)
  }

  /** Looking for the pool: a missing pool decides at once. */
  function AfterLook(pc: Pc, found: bool, serialized: bool): Pc {
    match pc
    case Start => if found then SawPool else Reading
    case Rechecking => if found then RecheckSawPool else NotReady(serialized)
    case ExecutorPublished => if found then ConfirmSawPool else RollingPool
    case _ => pc
  }

  function AfterLookAgain(pc: Pc, found: bool, serialized: bool): Pc {
    match pc
    case SawPool => if found then Done(true) else Reading
    case RecheckSawPool => if found then Leaving(true) else NotReady(serialized)
    case ConfirmSawPool => if found then Confirmed else RollingPool
    case _ => pc
  }

  /** Holding the gate and not ready: a serialized load instantiates now, a parallel one already has. */
  function NotReady(serialized: bool): Pc { if serialized then Instantiable else Prepared }

  function NameOf(s: State, t: TaskId): Name { if t in s.tasks then s.tasks[t].name else [] }

  /** Where the acting task stands after the step. */
  function NewPc(s: State, step: Step): Pc
    requires !step.Unload?
  {
    var pc := At(s, step.t);
    match step
    case Spawn(t, name, config) => Start
    case Look(t) => AfterLook(pc, NameOf(s, t) in s.models, s.serialized)
    case LookAgain(t) => AfterLookAgain(pc, NameOf(s, t) in s.executors, s.serialized)
    case Read(t, ok) => if ok then Depending else Done(false)
    case Depended(t, ok) => if !ok then Done(false) else if s.serialized then Waiting else Instantiating
    case Acquire(t) => Rechecking
    case StartJob(t) => Instantiating
    case EndJob(t, ok) =>
      if !pc.Instantiating? then pc
      else if s.serialized then (if ok then Prepared else Leaving(false))
      else if ok then Waiting else Done(false)
    case PanicJob(t) => if pc.Instantiating? then Done(false) else pc
    case Prepare(t, ok) => if ok then PathPublished else Leaving(false)
    case PublishPool(t) => Published
    case Build(t, ok) => if ok then ExecutorPublished else RollingPool
    case RebuildResolver(t, r) => if pc.Confirmed? then Committed else RolledBack
    case Roll(t) => if pc.RollingPool? then RollingExecutor else if pc.RollingExecutor? then RollingPath else RollingResolver
    case Release(t) => Done(pc.Committed? || (pc.Leaving? && pc.ok))
    case Cancel(t) => if pc.Published? then RollingPool else Done(false)
  }

  function TasksAfter(s: State, step: Step): map<TaskId, Task> {
    if step.Spawn? then s.tasks[step.t := Task(step.name, step.config, Start)]
    else if !step.Unload? && step.t in s.tasks then s.tasks[step.t := s.tasks[step.t].(pc := NewPc(s, step))]
    else s.tasks
  }

  /** A job that ends hands its permit to the waiting caller; with the caller gone, or on
      a panic, the permit is dropped. */
  function GateAfter(s: State, step: Step): Gate {
    match step
    case Acquire(t) => HeldByTask(t)
    case StartJob(t) => HeldByJob(t)
    case EndJob(t, ok) => if !s.serialized then s.gate else if At(s, t).Instantiating? then HeldByTask(t) else Free
    case PanicJob(t) => if s.serialized then Free else s.gate
    case Release(t) => Free
    case _ => s.gate
  }

  function JobsAfter(s: State, step: Step): set<TaskId> {
    match step
    case StartJob(t) => s.jobs + {t}
    case Depended(t, ok) => if ok && !s.serialized then s.jobs + {t} else s.jobs
    case EndJob(t, ok) => s.jobs - {t}
    case PanicJob(t) => s.jobs - {t}
    case _ => s.jobs
  }

  /** Unloading takes all three write locks, and touches nothing unless the pool is there. */
  predicate Removes(s: State, step: Step) { step.Unload? && step.name in s.models }

  function ModelsAfter(s: State, step: Step): map<Name, Config> {
    if Removes(s, step) then s.models - {step.name}
    else if step.PublishPool? && step.t in s.tasks then s.models[s.tasks[step.t].name := s.tasks[step.t].config]
    else if step.Roll? && At(s, step.t).RollingPool? then s.models - {NameOf(s, step.t)}
    else s.models
  }

  function ExecutorsAfter(s: State, step: Step): set<Name> {
    if Removes(s, step) then s.executors - {step.name}
    else if step.Build? && step.ok then s.executors + {NameOf(s, step.t)}
    else if step.Roll? && At(s, step.t).RollingExecutor? then s.executors - {NameOf(s, step.t)}
    else s.executors
  }

  function PathsAfter(s: State, step: Step): set<Name> {
    if Removes(s, step) then s.paths - {step.name}
    else if step.Prepare? && step.ok then s.paths + {NameOf(s, step.t)}
    else if step.Roll? && At(s, step.t).RollingPath? then s.paths - {NameOf(s, step.t)}
    else s.paths
  }

  /** Whether the step rebuilds the resolver from the pools it leaves. */
  predicate Rebuilds(s: State, step: Step) { step.RebuildResolver? || Removes(s, step) }

  function Apply(s: State, step: Step): State {
    s.(models := ModelsAfter(s, step), executors := ExecutorsAfter(s, step), paths := PathsAfter(s, step),
       resolver := if Rebuilds(s, step) then step.r else s.resolver,
       indexed := if Rebuilds(s, step) then ModelsAfter(s, step) else s.indexed,
       gate := GateAfter(s, step), tasks := TasksAfter(s, step), jobs := JobsAfter(s, step))
  }

  ghost predicate Init(s: State) {
    && s.models == map[] && s.executors == {} && s.paths == {}
    && s.resolver == Resolver(map[], map[]) && s.indexed == map[]
    && s.gate.Free? && s.tasks == map[] && s.jobs == {}
  }

  ghost predicate Next(s: State, s': State) {
    exists step :: Can(s, step) && s' == Apply(s, step)
  }

  ghost predicate Run(run: seq<State>) {
    && run != [] && Init(run[0])
    && forall i :: 0 <= i < |run| - 1 ==> Next(run[i], run[i + 1])
  }

  /** Every state of the trace, from `s` on, is one step of the machine from the one before. */
  ghost predicate Trace(run: seq<State>, s: State) {
    run != [] && run[0] == s && forall i :: 0 < i < |run| ==> Next(run[i - 1], run[i])
  }

  lemma TraceStart(s: State)
    ensures Trace([s], s)
  {
  }

  lemma TraceOn(run: seq<State>, s: State, next: State)
    requires Trace(run, s) && Next(run[|run| - 1], next)
    ensures Trace(run + [next], s)
  {
    hide Next;
  }

  lemma Moves(s: State, step: Step)
    requires Can(s, step)
    ensures Next(s, Apply(s, step))
  {
  }

  // ---- the invariant ----

  predicate InGate(pc: Pc) {
    !(pc.Start? || pc.SawPool? || pc.Reading? || pc.Depending? || pc.Instantiating? || pc.Waiting? || pc.Done?)
  }

  /** What may hold of a name in the pool, executor and directory maps while the gate
      holder for it stands at `pc`. */
  predicate Shape(pc: Pc, pool: bool, executor: bool, path: bool) {
    match pc
    case Instantiable => !pool && !executor && !path
    case Instantiating => !pool && !executor && !path
    case Prepared => !pool && !executor && !path
    case PathPublished => !pool && !executor && path
    case Published => !executor && pool == path
    case ExecutorPublished => (pool ==> executor) && pool == path
    case RollingPool => pool == path
    case RollingExecutor => !pool
    case RollingPath => !pool && !executor
    case RollingResolver => !pool && !executor && !path
    case RolledBack => !pool && !executor && !path
    case _ => pool == executor == path
  }

  /** Between arming the guard and the last rebuild the resolver may lag behind. */
  predicate Lagging(pc: Pc) {
    pc.Published? || pc.ExecutorPublished? || pc.ConfirmSawPool? || pc.Confirmed?
    || pc.RollingPool? || pc.RollingExecutor? || pc.RollingPath? || pc.RollingResolver?
  }

  /** One task against the gate and the jobs: it holds the gate exactly inside the gated
      region, and under serialized loads a job holds the gate while it runs. */
  predicate TaskOk(s: State, t: TaskId) {
    && (InGate(At(s, t)) <==> s.gate == HeldByTask(t))
    && (At(s, t).Instantiating? ==> t in s.jobs)
    && (At(s, t).Instantiable? ==> s.serialized)
    && (t in s.jobs ==> t in s.tasks && (s.serialized ==> s.gate == HeldByJob(t)))
    && (s.gate == HeldByJob(t) ==> s.serialized && t in s.jobs)
  }

  ghost predicate GateInv(s: State) { forall t :: TaskOk(s, t) }

  /** Where the holder of the gate stands. */
  function HolderPc(s: State): Pc {
    if s.gate.Free? then Done(false) else At(s, s.gate.task)
  }

  predicate HeldFor(s: State, n: Name) {
    !s.gate.Free? && s.gate.task in s.tasks && s.tasks[s.gate.task].name == n
  }

  predicate NameOk(s: State, n: Name) {
    Shape(if HeldFor(s, n) then HolderPc(s) else Done(false), n in s.models, n in s.executors, n in s.paths)
  }

  ghost predicate MapsInv(s: State) { forall n :: NameOk(s, n) }

  /** The resolver was rebuilt from the current pools, give or take the one name the gate
      holder has published and not yet indexed. */
  ghost predicate ResolverInv(s: State) {
    && Rebuilt(s.indexed, s.resolver)
    && (if Lagging(HolderPc(s)) then s.indexed - {NameOf(s, s.gate.task)} == s.models - {NameOf(s, s.gate.task)}
        else s.indexed == s.models)
  }

  /** Past its descriptor read a task's configuration is enabled; past its dependencies it
      also carries the task's own name. */
  predicate ConfigOk(s: State, t: TaskId) {
    && (At(s, t).Depending? || !Early(At(s, t)) ==> s.tasks[t].config.enabled)
    && (!Early(At(s, t)) ==> s.tasks[t].config.name == s.tasks[t].name)
  }

  predicate Early(pc: Pc) { pc.Start? || pc.SawPool? || pc.Reading? || pc.Depending? || pc.Done? }

  ghost predicate OwnNames(models: map<Name, Config>) {
    forall n :: n in models ==> models[n].name == n && models[n].enabled
  }

  /** Only enabled models are ever published, each under its own name. */
  ghost predicate NamesInv(s: State) {
    (forall t :: ConfigOk(s, t)) && OwnNames(s.models) && OwnNames(s.indexed)
  }

  ghost predicate Inv(s: State) { GateInv(s) && MapsInv(s) && ResolverInv(s) && NamesInv(s) }

  // ---- every step keeps it ----

  /** The acting task and the gate holder, as the gate invariant describes them. */
  lemma Actors(s: State, step: Step)
    requires GateInv(s)
    ensures !step.Unload? ==> TaskOk(s, step.t)
    ensures !s.gate.Free? ==> TaskOk(s, s.gate.task)
  {
  }

  // The steps, by what they do: publish, undo, move a task towards the gate, or pass the gate and
  // the jobs on.

  predicate Publishes(step: Step) { step.Prepare? || step.PublishPool? || step.Build? }

  predicate Undoes(step: Step) { step.Roll? || step.RebuildResolver? || step.Unload? }

  predicate Starts(step: Step) { step.Spawn? || step.Look? || step.LookAgain? || step.Read? || step.Depended? }

  predicate Gates(step: Step) { !Publishes(step) && !Undoes(step) && !Starts(step) }

  lemma PublishingKeepsGate(s: State, step: Step)
    requires GateInv(s) && Can(s, step) && Publishes(step)
    ensures GateInv(Apply(s, step))
  {
    hide Rebuilt, ModelsAfter, ExecutorsAfter, PathsAfter;
    Actors(s, step);
    forall t ensures TaskOk(Apply(s, step), t) {
      assert TaskOk(s, t);
    }
  }

  lemma PublishingKeepsMaps(s: State, step: Step)
    requires GateInv(s) && MapsInv(s) && Can(s, step) && Publishes(step)
    ensures MapsInv(Apply(s, step))
  {
    hide Rebuilt, JobsAfter;
    Actors(s, step);
    forall n ensures NameOk(Apply(s, step), n) {
      assert NameOk(s, n);
    }
  }

  lemma PublishingKeepsResolver(s: State, step: Step)
    requires GateInv(s) && ResolverInv(s) && Can(s, step) && Publishes(step)
    ensures ResolverInv(Apply(s, step))
  {
    hide Rebuilt, JobsAfter, ExecutorsAfter, PathsAfter;
    Actors(s, step);
  }

  lemma UndoingKeepsGate(s: State, step: Step)
    requires GateInv(s) && Can(s, step) && Undoes(step)
    ensures GateInv(Apply(s, step))
  {
    hide Rebuilt, ModelsAfter, ExecutorsAfter, PathsAfter;
    Actors(s, step);
    forall t ensures TaskOk(Apply(s, step), t) {
      assert TaskOk(s, t);
    }
  }

  lemma UndoingKeepsMaps(s: State, step: Step)
    requires GateInv(s) && MapsInv(s) && Can(s, step) && Undoes(step)
    ensures MapsInv(Apply(s, step))
  {
    hide Rebuilt, JobsAfter;
    Actors(s, step);
    forall n ensures NameOk(Apply(s, step), n) {
      assert NameOk(s, n);
    }
  }

  lemma UndoingKeepsResolver(s: State, step: Step)
    requires GateInv(s) && ResolverInv(s) && Can(s, step) && Undoes(step)
    ensures ResolverInv(Apply(s, step))
  {
    hide Rebuilt, JobsAfter, ExecutorsAfter, PathsAfter;
    Actors(s, step);
  }

  lemma StartingKeepsGate(s: State, step: Step)
    requires GateInv(s) && Can(s, step) && Starts(step)
    ensures GateInv(Apply(s, step))
  {
    hide Rebuilt, ModelsAfter, ExecutorsAfter, PathsAfter;
    Actors(s, step);
    forall t ensures TaskOk(Apply(s, step), t) {
      assert TaskOk(s, t);
    }
  }

  lemma StartingKeepsMaps(s: State, step: Step)
    requires GateInv(s) && MapsInv(s) && Can(s, step) && Starts(step)
    ensures MapsInv(Apply(s, step))
  {
    hide Rebuilt, JobsAfter;
    Actors(s, step);
    forall n ensures NameOk(Apply(s, step), n) {
      assert NameOk(s, n);
    }
  }

  lemma StartingKeepsResolver(s: State, step: Step)
    requires GateInv(s) && ResolverInv(s) && Can(s, step) && Starts(step)
    ensures ResolverInv(Apply(s, step))
  {
    hide Rebuilt, JobsAfter, ExecutorsAfter, PathsAfter;
    Actors(s, step);
  }

  lemma GatingKeepsGate(s: State, step: Step)
    requires GateInv(s) && Can(s, step) && Gates(step)
    ensures GateInv(Apply(s, step))
  {
    hide Rebuilt, ModelsAfter, ExecutorsAfter, PathsAfter;
    Actors(s, step);
    forall t ensures TaskOk(Apply(s, step), t) {
      assert TaskOk(s, t);
    }
  }

  lemma GatingKeepsMaps(s: State, step: Step)
    requires GateInv(s) && MapsInv(s) && Can(s, step) && Gates(step)
    ensures MapsInv(Apply(s, step))
  {
    hide Rebuilt, JobsAfter;
    Actors(s, step);
    forall n ensures NameOk(Apply(s, step), n) {
      assert NameOk(s, n);
    }
  }

  lemma GatingKeepsResolver(s: State, step: Step)
    requires GateInv(s) && ResolverInv(s) && Can(s, step) && Gates(step)
    ensures ResolverInv(Apply(s, step))
  {
    hide Rebuilt, JobsAfter, ExecutorsAfter, PathsAfter;
    Actors(s, step);
  }

  lemma ConfigsKept(s: State, step: Step, t: TaskId)
    requires Can(s, step) && ConfigOk(s, t)
    ensures ConfigOk(Apply(s, step), t)
  {
    hide Rebuilt, ModelsAfter, ExecutorsAfter, PathsAfter, GateAfter, JobsAfter;
  }

  lemma NamesKept(s: State, step: Step)
    requires NamesInv(s) && Can(s, step)
    ensures NamesInv(Apply(s, step))
  {
    hide Rebuilt;
    forall t ensures ConfigOk(Apply(s, step), t) {
      ConfigsKept(s, step, t);
    }
    if step.PublishPool? { assert ConfigOk(s, step.t); }
  }

  /** Every step of every task, job and unload keeps the invariant. */
  lemma InvKept(s: State, step: Step)
    requires Inv(s) && Can(s, step)
    ensures Inv(Apply(s, step))
  {
    hide GateInv, MapsInv, ResolverInv, NamesInv, Can, Apply;
    NamesKept(s, step);
    if Publishes(step) {
      PublishingKeepsGate(s, step);
      PublishingKeepsMaps(s, step);
      PublishingKeepsResolver(s, step);
    } else if Undoes(step) {
      UndoingKeepsGate(s, step);
      UndoingKeepsMaps(s, step);
      UndoingKeepsResolver(s, step);
    } else if Starts(step) {
      StartingKeepsGate(s, step);
      StartingKeepsMaps(s, step);
      StartingKeepsResolver(s, step);
    } else {
      GatingKeepsGate(s, step);
      GatingKeepsMaps(s, step);
      GatingKeepsResolver(s, step);
    }
  }

  lemma InvAtStart(s: State)
    requires Init(s)
    ensures Inv(s)
  {
    assert s.models.Values == {};
    EmptyIndex(EmbedKey);
    EmptyIndex(ConvertKey);
  }

  // ---- over every run ----

  lemma {:induction false} InvAlways(run: seq<State>, i: nat)
    requires Run(run) && i < |run|
    ensures Inv(run[i])
    decreases i
  {
    hide Inv, Can, Apply, Init;
    if i == 0 {
      InvAtStart(run[0]);
    } else {
      InvAlways(run, i - 1);
      assert Next(run[i - 1], run[i]);
      var step :| Can(run[i - 1], step) && run[i] == Apply(run[i - 1], step);
      InvKept(run[i - 1], step);
    }
  }

  /** The three maps list the same names and the resolver is a rebuild of the pools. */
  ghost predicate Consistent(s: State) {
    s.models.Keys == s.executors == s.paths && Rebuilt(s.models, s.resolver)
  }

  /** Over every interleaving of loads, cancellations, failures and unloads: whenever the
      commit gate is free, the engine is consistent. */
  lemma ConsistentWhenFree(run: seq<State>, i: nat)
    requires Run(run) && i < |run| && run[i].gate.Free?
    ensures Consistent(run[i])
  {
    hide Run, Rebuilt;
    InvAlways(run, i);
    forall n ensures (n in run[i].models) == (n in run[i].executors) == (n in run[i].paths) {
      assert NameOk(run[i], n);
    }
  }

  /** Even while the gate is held, the maps can disagree about one name only: the one the
      holder is publishing or rolling back. */
  lemma OnlyTheHolderIsHalfPublished(run: seq<State>, i: nat, n: Name)
    requires Run(run) && i < |run|
    requires !((n in run[i].models) == (n in run[i].executors) == (n in run[i].paths))
    ensures run[i].gate.HeldByTask? && HeldFor(run[i], n) && InGate(HolderPc(run[i]))
  {
    hide Run, Rebuilt;
    InvAlways(run, i);
    assert NameOk(run[i], n);
    if !run[i].gate.Free? { assert TaskOk(run[i], run[i].gate.task); }
  }

  /** A resolver answer, from either index, names a loaded model or the one the gate holder has
      published. */
  lemma ResolverNamesLoadedModels(run: seq<State>, i: nat, answer: Name)
    requires Run(run) && i < |run|
    requires answer in run[i].resolver.embed.Values || answer in run[i].resolver.convert.Values
    ensures answer in run[i].models || (run[i].gate.HeldByTask? && answer == NameOf(run[i], run[i].gate.task))
  {
    hide Run, MapsInv, IsIndex;
    InvAlways(run, i);
    var s := run[i];
    var c := AnswerIsIndexed(s, answer);
    var n :| n in s.indexed && s.indexed[n] == c;
    if Lagging(HolderPc(s)) {
      assert TaskOk(s, s.gate.task);
      if n != NameOf(s, s.gate.task) { assert n in s.indexed - {NameOf(s, s.gate.task)}; }
    }
  }

  lemma AnswerIsIndexed(s: State, answer: Name) returns (c: Config)
    requires Rebuilt(s.indexed, s.resolver)
    requires answer in s.resolver.embed.Values || answer in s.resolver.convert.Values
    ensures c in s.indexed.Values && c.name == answer
  {
    if answer in s.resolver.embed.Values {
      var key :| key in s.resolver.embed && s.resolver.embed[key] == answer;
      assert Wins(s.indexed.Values, EmbedKey, key, answer);
      c :| c in s.indexed.Values && Contributes(EmbedKey, c, key) && c.name == answer;
    } else {
      var key :| key in s.resolver.convert && s.resolver.convert[key] == answer;
      assert Wins(s.indexed.Values, ConvertKey, key, answer);
      c :| c in s.indexed.Values && Contributes(ConvertKey, c, key) && c.name == answer;
    }
  }

  /** At or past publication: the guard is armed. */
  predicate Armed(pc: Pc) { Lagging(pc) || pc.RolledBack? }

  /** A load that fails or is cancelled after publication ends with its name in none of
      the three maps. */
  lemma FailedLoadLeavesNothing(run: seq<State>, i: nat, t: TaskId)
    requires Run(run) && i + 1 < |run|
    requires Armed(At(run[i], t)) && At(run[i + 1], t) == Done(false)
    ensures var n := NameOf(run[i + 1], t);
            n !in run[i + 1].models && n !in run[i + 1].executors && n !in run[i + 1].paths
  {
    InvAlways(run, i);
    assert Next(run[i], run[i + 1]);
    var step :| Can(run[i], step) && run[i + 1] == Apply(run[i], step);
    hide Run, Rebuilt, Next;
    assert TaskOk(run[i], t);
    assert NameOk(run[i], NameOf(run[i], t));
    OnlyReleaseEnds(run[i], step, t);
  }

  lemma OnlyReleaseEnds(s: State, step: Step, t: TaskId)
    requires Can(s, step) && Armed(At(s, t)) && At(Apply(s, step), t) == Done(false)
    ensures step == Release(t) && At(s, t).RolledBack?
  {
    hide Rebuilt;
  }

  /** Serialized loads never run two template instantiations at once, even after their
      callers were cancelled: the permit travels inside the job. */
  lemma AtMostOneInstantiation(run: seq<State>, i: nat, t: TaskId, u: TaskId)
    requires Run(run) && i < |run| && run[i].serialized && t in run[i].jobs && u in run[i].jobs
    ensures t == u
  {
    hide Run, Rebuilt, MapsInv, ResolverInv;
    InvAlways(run, i);
    assert TaskOk(run[i], t) && TaskOk(run[i], u);
  }
}

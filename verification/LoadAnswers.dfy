/** What a load answers, over every run: success only for a model it saw ready, failure only for a
    reason, and never a failure that leaves something published. */
module LoadAnswers {
  import opened Names
  import opened ModelResolver
  import opened Lifecycle

  /** Bound to answer success. */
  predicate Succeeding(pc: Pc) { pc.Committed? || pc == Leaving(true) || pc == Done(true) }

  /** Bound to answer failure. */
  predicate Failing(pc: Pc) {
    Rolling(pc) || pc.RollingResolver? || pc.RolledBack? || pc == Leaving(false) || pc == Done(false)
  }

  /** Has written to one of the maps and not committed. */
  predicate Wrote(pc: Pc) { pc.PathPublished? || Armed(pc) }

  // ---- one step ----

  lemma OtherTasksStay(s: State, step: Step, t: TaskId)
    requires Can(s, step) && t in s.tasks
    ensures t in Apply(s, step).tasks && NameOf(Apply(s, step), t) == NameOf(s, t)
    ensures step.Unload? || step.t != t ==> At(Apply(s, step), t) == At(s, t)
  {
    hide Rebuilt, ModelsAfter, ExecutorsAfter, PathsAfter, JobsAfter, GateAfter, NewPc;
  }

  lemma OwnStep(s: State, step: Step)
    requires Can(s, step) && !step.Unload? && step.t in s.tasks
    ensures At(Apply(s, step), step.t) == NewPc(s, step)
  {
    hide Rebuilt, ModelsAfter, ExecutorsAfter, PathsAfter, JobsAfter, GateAfter, NewPc;
  }

  lemma AnswerStays(s: State, step: Step, t: TaskId)
    requires Can(s, step) && t in s.tasks
    ensures Succeeding(At(s, t)) ==> Succeeding(At(Apply(s, step), t))
    ensures Failing(At(s, t)) ==> Failing(At(Apply(s, step), t))
  {
    hide Can, Apply, NewPc, Succeeding, Failing;
    OtherTasksStay(s, step, t);
    if !step.Unload? && step.t == t {
      OwnStep(s, step);
      AnswerStaysOwn(s, step);
    }
  }

  lemma AnswerStaysOwn(s: State, step: Step)
    requires Can(s, step) && !step.Unload? && step.t in s.tasks
    ensures Succeeding(At(s, step.t)) ==> Succeeding(NewPc(s, step))
    ensures Failing(At(s, step.t)) ==> Failing(NewPc(s, step))
  {
    hide Rebuilt;
  }

  /** A load that wrote keeps being one until it commits, or has undone everything and leaves. */
  lemma WroteStays(s: State, step: Step, t: TaskId)
    requires Can(s, step) && t in s.tasks && Wrote(At(s, t))
    ensures var pc := At(Apply(s, step), t); Wrote(pc) || pc.Committed? || (pc == Done(false) && At(s, t).RolledBack?)
  {
    hide Can, Apply, NewPc, Wrote;
    OtherTasksStay(s, step, t);
    if !step.Unload? && step.t == t {
      OwnStep(s, step);
      WroteStaysOwn(s, step);
    }
  }

  lemma WroteStaysOwn(s: State, step: Step)
    requires Can(s, step) && !step.Unload? && step.t in s.tasks
    ensures var pc := NewPc(s, step);
            Wrote(At(s, step.t)) ==> Wrote(pc) || pc.Committed? || (pc == Done(false) && At(s, step.t).RolledBack?)
  {
    hide Rebuilt;
  }

  /** Only an unload, or a step after which the load counts as having written, changes a map. */
  lemma OnlyPublishingWrites(s: State, step: Step)
    requires Can(s, step) && GateInv(s)
    requires ModelsAfter(s, step) != s.models || ExecutorsAfter(s, step) != s.executors || PathsAfter(s, step) != s.paths
    ensures step.Unload? || (step.t in s.tasks && Wrote(At(Apply(s, step), step.t)))
  {
    hide Rebuilt, GateInv, GateAfter, JobsAfter;
  }

  /** A load turns to failure only because a file could not be read, a dependency failed, its template
      failed or panicked, its pool or executor could not be built, its caller left, or, once built, it
      was found to be unloaded. */
  ghost predicate Reason(s: State, step: Step, t: TaskId) {
    || step == Read(t, false) || step == Depended(t, false) || step == EndJob(t, false) || step == PanicJob(t)
    || step == Prepare(t, false) || step == Build(t, false) || step == Cancel(t)
    || (step == Look(t) && At(s, t).ExecutorPublished? && NameOf(s, t) !in s.models)
    || (step == LookAgain(t) && At(s, t).ConfirmSawPool? && NameOf(s, t) !in s.executors)
  }

  lemma FailsForAReason(s: State, step: Step, t: TaskId)
    requires Can(s, step) && t in s.tasks && !Failing(At(s, t)) && Failing(At(Apply(s, step), t))
    ensures Reason(s, step, t)
  {
    OtherTasksStay(s, step, t);
    OwnStep(s, step);
    hide Rebuilt, Apply;
  }

  // ---- over every run ----

  lemma StepOf(run: seq<State>, i: nat) returns (step: Step)
    requires Run(run) && i + 1 < |run|
    ensures Can(run[i], step) && run[i + 1] == Apply(run[i], step)
  {
    hide Can, Apply, Init;
    assert Next(run[i], run[i + 1]);
    step :| Can(run[i], step) && run[i + 1] == Apply(run[i], step);
  }

  lemma {:induction false} TaskStays(run: seq<State>, i: nat, j: nat, t: TaskId)
    requires Run(run) && i <= j < |run| && t in run[i].tasks
    ensures t in run[j].tasks && NameOf(run[j], t) == NameOf(run[i], t)
    decreases j
  {
    hide Run, Can, Apply, NameOf;
    if i < j {
      TaskStays(run, i, j - 1, t);
      var step := StepOf(run, j - 1);
      OtherTasksStay(run[j - 1], step, t);
    }
  }

  /** The answer is decided once: a load that committed can only answer success, a load that rolls back
      only failure. */
  lemma {:induction false} AnswerIsDecided(run: seq<State>, i: nat, j: nat, t: TaskId)
    requires Run(run) && i <= j < |run| && t in run[i].tasks
    ensures Succeeding(At(run[i], t)) ==> Succeeding(At(run[j], t))
    ensures Failing(At(run[i], t)) ==> Failing(At(run[j], t))
    decreases j
  {
    hide Run, Can, Apply, At, Succeeding, Failing;
    if i < j {
      AnswerIsDecided(run, i, j - 1, t);
      TaskStays(run, i, j - 1, t);
      var step := StepOf(run, j - 1);
      AnswerStays(run[j - 1], step, t);
    }
  }

  /** A load that ever committed answers success if it answers. */
  lemma {:induction false} CommittedAnswersSuccess(run: seq<State>, i: nat, j: nat, t: TaskId)
    requires Run(run) && i <= j < |run| && t in run[i].tasks && At(run[i], t).Committed?
    ensures At(run[j], t) == Committed || At(run[j], t) == Done(true)
    decreases j
  {
    hide Run, Can, Apply;
    if i < j {
      CommittedAnswersSuccess(run, i, j - 1, t);
      TaskStays(run, i, j - 1, t);
      var step := StepOf(run, j - 1);
      CommittedStep(run[j - 1], step, t);
    }
  }

  lemma CommittedStep(s: State, step: Step, t: TaskId)
    requires Can(s, step) && t in s.tasks && (At(s, t).Committed? || At(s, t).Done?)
    ensures if At(s, t).Done? then At(Apply(s, step), t) == At(s, t)
            else At(Apply(s, step), t) == Committed || At(Apply(s, step), t) == Done(true)
  {
    hide Can, Apply, NewPc;
    OtherTasksStay(s, step, t);
    if !step.Unload? && step.t == t {
      OwnStep(s, step);
      CommittedStepOwn(s, step);
    }
  }

  lemma CommittedStepOwn(s: State, step: Step)
    requires Can(s, step) && !step.Unload? && step.t in s.tasks
    ensures At(s, step.t).Done? ==> NewPc(s, step) == At(s, step.t)
    ensures At(s, step.t).Committed? ==> NewPc(s, step) == Committed || NewPc(s, step) == Done(true)
  {
    hide Rebuilt;
  }

  lemma RolledBackAnswersFailure(run: seq<State>, i: nat, j: nat, t: TaskId)
    requires Run(run) && i <= j < |run| && t in run[i].tasks && (At(run[i], t).RolledBack? || Rolling(At(run[i], t)))
    ensures At(run[j], t).Done? ==> At(run[j], t) == Done(false)
  {
    hide Run;
    AnswerIsDecided(run, i, j, t);
  }

  // ---- success ----

  predicate SeenPool(pc: Pc) { pc.SawPool? || pc.RecheckSawPool? || pc.ConfirmSawPool? }

  predicate SeenReady(pc: Pc) { pc.Confirmed? || Succeeding(pc) }

  /** At `a` the model's pool was there while the load ran. */
  predicate PoolThere(run: seq<State>, t: TaskId, n: Name, a: nat) {
    a < |run| && t in run[a].tasks && n in run[a].models
  }

  predicate ExecutorThere(run: seq<State>, n: Name, b: nat) { b < |run| && n in run[b].executors }

  ghost predicate SawReady(run: seq<State>, t: TaskId, n: Name, j: nat) {
    exists a: nat, b: nat :: a <= b <= j && PoolThere(run, t, n, a) && ExecutorThere(run, n, b)
  }

  ghost predicate SawItsPool(run: seq<State>, t: TaskId, n: Name, j: nat) {
    exists a: nat :: a <= j && PoolThere(run, t, n, a)
  }

  /** Where a step first lets a load count as having seen its pool, or the whole model. */
  lemma SeesBeforeItCounts(s: State, step: Step, t: TaskId)
    requires Can(s, step) && t in s.tasks
    ensures var pc, pc' := At(s, t), At(Apply(s, step), t);
            && (SeenPool(pc') ==> SeenPool(pc) || NameOf(s, t) in s.models)
            && (SeenReady(pc') ==> SeenReady(pc) || (SeenPool(pc) && NameOf(s, t) in s.executors))
  {
    hide Can, Apply, NewPc, SeenPool, SeenReady;
    OtherTasksStay(s, step, t);
    if !step.Unload? && step.t == t {
      OwnStep(s, step);
      SeesBeforeItCountsOwn(s, step);
    }
  }

  lemma SeesBeforeItCountsOwn(s: State, step: Step)
    requires Can(s, step) && !step.Unload? && step.t in s.tasks
    ensures var pc, pc' := At(s, step.t), NewPc(s, step);
            && (SeenPool(pc') ==> SeenPool(pc) || NameOf(s, step.t) in s.models)
            && (SeenReady(pc') ==> SeenReady(pc) || (SeenPool(pc) && NameOf(s, step.t) in s.executors))
  {
    hide Rebuilt;
  }

  lemma NewTaskHasSeenNothing(s: State, step: Step, t: TaskId)
    requires Can(s, step) && t !in s.tasks
    ensures !SeenPool(At(Apply(s, step), t)) && !SeenReady(At(Apply(s, step), t))
  {
    hide Rebuilt, ModelsAfter, ExecutorsAfter, PathsAfter, JobsAfter, GateAfter;
  }

  lemma {:induction false} SeenMeansThere(run: seq<State>, j: nat, t: TaskId)
    requires Run(run) && j < |run|
    ensures SeenPool(At(run[j], t)) ==> SawItsPool(run, t, NameOf(run[j], t), j)
    ensures SeenReady(At(run[j], t)) ==> SawReady(run, t, NameOf(run[j], t), j)
    decreases j
  {
    hide Run, Can, Apply, SeenPool, SeenReady, NameOf, At;
    if j == 0 {
      NothingSeenAtStart(run, t);
    } else {
      var i := j - 1;
      SeenMeansThere(run, i, t);
      var step := StepOf(run, i);
      var n := NameOf(run[i], t);
      if t in run[i].tasks {
        OtherTasksStay(run[i], step, t);
        SeesBeforeItCounts(run[i], step, t);
        if n in run[i].models { assert PoolThere(run, t, n, i); }
        if n in run[i].executors { assert ExecutorThere(run, n, i); }
      } else {
        NewTaskHasSeenNothing(run[i], step, t);
      }
    }
  }

  lemma NothingSeenAtStart(run: seq<State>, t: TaskId)
    requires Run(run)
    ensures !SeenPool(At(run[0], t)) && !SeenReady(At(run[0], t))
  {
  }

  /** A load answers success only after it found, while it ran, the model's pool and then its executor. */
  lemma SuccessSawTheModel(run: seq<State>, j: nat, t: TaskId)
    requires Run(run) && j < |run| && At(run[j], t) == Done(true)
    ensures exists a: nat, b: nat ::
              a <= b <= j && PoolThere(run, t, NameOf(run[j], t), a) && ExecutorThere(run, NameOf(run[j], t), b)
  {
    hide Run;
    SeenMeansThere(run, j, t);
  }

  // ---- failure ----

  lemma {:induction false} WroteUntil(run: seq<State>, i: nat, j: nat, t: TaskId)
    requires Run(run) && i <= j < |run| && t in run[i].tasks && Wrote(At(run[i], t))
    ensures Wrote(At(run[j], t)) || Succeeding(At(run[j], t)) || At(run[j], t) == Done(false)
    decreases j
  {
    hide Run, Can, Apply, Wrote;
    if i < j {
      WroteUntil(run, i, j - 1, t);
      TaskStays(run, i, j - 1, t);
      var step := StepOf(run, j - 1);
      if Wrote(At(run[j - 1], t)) {
        WroteStays(run[j - 1], step, t);
      } else if Succeeding(At(run[j - 1], t)) {
        AnswerStays(run[j - 1], step, t);
      } else {
        CommittedStep(run[j - 1], step, t);
      }
    }
  }

  /** A load that answers failure was never committed; and if it ever wrote to a map, its name is in
      none of the three when it answers. */
  lemma FailureLeavesNothing(run: seq<State>, j: nat, t: TaskId, i: nat)
    requires Run(run) && j + 1 < |run| && t in run[j].tasks
    requires !At(run[j], t).Done? && At(run[j + 1], t) == Done(false)
    requires i <= j && t in run[i].tasks
    ensures !Succeeding(At(run[i], t))
    ensures Wrote(At(run[i], t)) ==>
              var n := NameOf(run[j + 1], t);
              n !in run[j + 1].models && n !in run[j + 1].executors && n !in run[j + 1].paths
  {
    hide Run, Can, Apply;
    AnswerIsDecided(run, i, j + 1, t);
    if Wrote(At(run[i], t)) {
      WroteUntil(run, i, j, t);
      AnswerIsDecided(run, j, j + 1, t);
      var step := StepOf(run, j);
      WroteStays(run[j], step, t);
      FailedLoadLeavesNothing(run, j, t);
    }
  }
}

/** Nested predictions, over every run: they start only inside a closure that runs under a permit, need
    none of their own, and are accounted for one by one. */
module NestedWork {
  import opened Permits

  lemma LongerHistory(steps: seq<Step>, i: nat)
    requires i < |steps|
    ensures steps[..i + 1] == steps[..i] + [steps[i]]
  {
  }

  /** One step: a request is moved only by its move, and once gone stays gone. */
  lemma StageMoves(s: State, step: Step, id: Id)
    requires Can(s, step)
    ensures At(Apply(s, step), id, Moved) ==> At(s, id, Moved) || step == Move(id)
    ensures At(s, id, Gone) || step == Finish(id) ==> At(Apply(s, step), id, Gone)
  {
  }

  lemma {:induction false} MovedByMove(run: seq<State>, steps: seq<Step>, i: nat, id: Id)
    requires Trace(run, steps) && i < |run|
    ensures At(run[i], id, Moved) ==> Move(id) in steps[..i]
    ensures Finish(id) in steps[..i] ==> At(run[i], id, Gone)
    decreases i
  {
    hide At, Apply, Can;
    if i == 0 {
      NobodyAtStart(run[0], id);
    } else {
      MovedByMove(run, steps, i - 1, id);
      assert By(run[i - 1], steps[i - 1], run[i]);
      StageMoves(run[i - 1], steps[i - 1], id);
      LongerHistory(steps, i - 1);
    }
  }

  lemma NobodyAtStart(s: State, id: Id)
    requires Idle(s)
    ensures !At(s, id, Moved)
  {
  }

  /** Nested work starts only after its root's permit was moved into the closure, and before the
      closure ended. */
  lemma NestedStartsInClosure(run: seq<State>, steps: seq<Step>, i: nat, id: Id)
    requires Trace(run, steps) && i < |steps| && steps[i] == NestedStart(id)
    ensures Move(id) in steps[..i] && Finish(id) !in steps[..i]
  {
    MovedByMove(run, steps, i, id);
    assert By(run[i], steps[i], run[i + 1]);
  }

  lemma NestedStep(s: State, step: Step, id: Id)
    requires Can(s, step)
    ensures Nested(Apply(s, step), id) + (if step == NestedEnd(id) then 1 else 0)
            == Nested(s, id) + (if step == NestedStart(id) then 1 else 0)
  {
  }

  /** The nested predictions of a root in progress are those started less those ended. */
  lemma {:induction false} NestedIsCounted(run: seq<State>, steps: seq<Step>, i: nat, id: Id)
    requires Trace(run, steps) && i < |run|
    ensures Nested(run[i], id) + multiset(steps[..i])[NestedEnd(id)] == multiset(steps[..i])[NestedStart(id)]
    decreases i
  {
    hide Apply, Can;
    if i > 0 {
      NestedIsCounted(run, steps, i - 1, id);
      assert By(run[i - 1], steps[i - 1], run[i]);
      NestedStep(run[i - 1], steps[i - 1], id);
      LongerHistory(steps, i - 1);
    }
  }

  /** A running closure can always start nested work, even with no permit free: nesting cannot wait for
      the permit its own root holds. */
  lemma NestedNeverWaits(run: seq<State>, id: Id) returns (s: State)
    requires Run(run) && At(run[|run| - 1], id, Moved)
    ensures Run(run + [s]) && s.free == run[|run| - 1].free && Nested(s, id) == Nested(run[|run| - 1], id) + 1
  {
    var last := run[|run| - 1];
    s := Apply(last, NestedStart(id));
    var more := run + [s];
    assert Next(last, s);
    forall i | 0 < i < |more| ensures Next(more[i - 1], more[i]) {
      if i < |run| { assert more[i - 1] == run[i - 1] && more[i] == run[i]; }
    }
  }
}

/** Weighted permits as the host uses them: the engine's admission gate (weight one per
    root prediction) and the provider response budget (one permit per MiB). A permit is
    granted to a request's future, then moved into the blocking closure or the response
    body, where it outlives a caller that timed out. */
module Permits {
  import opened Arithmetic

  type Id = nat

  datatype Stage =
    | Waiting   // queued for the permit, deadline running
    | Owned     // the request's own future holds the permit
    | Moved     // the closure or the response body holds it; the caller may be gone
    | Gone

  datatype Request = Request(weight: nat, bytes: nat, stage: Stage)

  /** `nested` counts, by root, the nested predictions started from its closure and not yet ended;
      they may outlive the closure, and take no permit of their own. */
  datatype State = State(capacity: nat, free: nat, requests: map<Id, Request>, nested: map<Id, nat>)

  datatype Step =
    | Arrive(id: Id, weight: nat, bytes: nat)
    | Grant(id: Id)
    | GiveUp(id: Id)      // deadline or cancellation while queued
    | Fail(id: Id)        // missing model, pool timeout, provider error, cancellation
    | Move(id: Id)        // spawn the closure, or attach the permit to the response body
    | CallerLeaves(id: Id)
    | Finish(id: Id)      // the closure returns, or the body is written or dropped
    | NestedStart(id: Id)
    | NestedEnd(id: Id)

  predicate At(s: State, id: Id, stage: Stage) { id in s.requests && s.requests[id].stage == stage }

  function Nested(s: State, id: Id): nat { if id in s.nested then s.nested[id] else 0 }

  predicate Can(s: State, step: Step) {
    match step
    case Arrive(id, w, b) => id !in s.requests
    case Grant(id) => At(s, id, Waiting) && s.requests[id].weight <= s.free
    case GiveUp(id) => At(s, id, Waiting)
    case Fail(id) => At(s, id, Owned)
    case Move(id) => At(s, id, Owned)
    case CallerLeaves(id) => At(s, id, Moved)
    case Finish(id) => At(s, id, Moved)
    case NestedStart(id) => At(s, id, Moved)
    case NestedEnd(id) => Nested(s, id) > 0
  }

  function Put(s: State, id: Id, stage: Stage): map<Id, Request>
    requires id in s.requests
  {
    s.requests[id := s.requests[id].(stage := stage)]
  }

  function Apply(s: State, step: Step): State
    requires Can(s, step)
  {
    match step
    case Arrive(id, w, b) => s.(requests := s.requests[id := Request(w, b, Waiting)])
    case Grant(id) => s.(requests := Put(s, id, Owned), free := s.free - s.requests[id].weight)
    case GiveUp(id) => s.(requests := Put(s, id, Gone))
    case Fail(id) => s.(requests := Put(s, id, Gone), free := s.free + s.requests[id].weight)
    case Move(id) => s.(requests := Put(s, id, Moved))
    case CallerLeaves(id) => s
    case Finish(id) => s.(requests := Put(s, id, Gone), free := s.free + s.requests[id].weight)
    case NestedStart(id) => s.(nested := s.nested[id := Nested(s, id) + 1])
    case NestedEnd(id) => s.(nested := s.nested[id := Nested(s, id) - 1])
  }

  predicate Idle(s: State) { s.free == s.capacity && s.requests == map[] && s.nested == map[] }

  ghost predicate Next(s: State, s': State) { exists step :: Can(s, step) && s' == Apply(s, step) }

  ghost predicate Run(run: seq<State>) {
    && run != [] && Idle(run[0])
    && forall i :: 0 < i < |run| ==> Next(run[i - 1], run[i])
  }

  // ---- sums over the requests ----

  predicate Holds(r: Request) { r.stage == Owned || r.stage == Moved }

  function Weight(r: Request): nat { if Holds(r) then r.weight else 0 }

  ghost function Total(m: map<Id, Request>, f: Request -> nat): nat {
    if m == map[] then 0
    else
      var id :| id in m;
      f(m[id]) + Total(m - {id}, f)
  }

  lemma {:induction false} TotalWithout(m: map<Id, Request>, f: Request -> nat, id: Id)
    requires id in m
    ensures Total(m, f) == f(m[id]) + Total(m - {id}, f)
    decreases |m|
  {
    var first :| first in m && Total(m, f) == f(m[first]) + Total(m - {first}, f);
    if first != id {
      TotalWithout(m - {first}, f, id);
      TotalWithout(m - {id}, f, first);
      assert m - {first} - {id} == m - {id} - {first};
    }
  }

  lemma TotalPut(m: map<Id, Request>, f: Request -> nat, id: Id, r: Request)
    ensures Total(m[id := r], f) == Total(m - {id}, f) + f(r)
    ensures Total(m, f) == Total(m - {id}, f) + (if id in m then f(m[id]) else 0)
  {
    TotalWithout(m[id := r], f, id);
    assert m[id := r] - {id} == m - {id};
    if id in m { TotalWithout(m, f, id); } else { assert m - {id} == m; }
  }

  lemma {:induction false} TotalMonotone(m: map<Id, Request>, f: Request -> nat, g: Request -> nat)
    requires forall id :: id in m ==> f(m[id]) <= g(m[id])
    ensures Total(m, f) <= Total(m, g)
    decreases |m|
  {
    if m != map[] {
      var id :| id in m;
      TotalWithout(m, f, id);
      TotalWithout(m, g, id);
      TotalMonotone(m - {id}, f, g);
    }
  }

  // ---- conservation ----

  ghost predicate Conserved(s: State) { s.free + Total(s.requests, Weight) == s.capacity }

  /** Every step conserves permits: what is free plus what is held is the capacity. */
  lemma StepConserves(s: State, step: Step)
    requires Conserved(s) && Can(s, step)
    ensures Conserved(Apply(s, step)) && Apply(s, step).capacity == s.capacity
  {
    hide Total;
    match step
    case Arrive(id, w, b) => TotalPut(s.requests, Weight, id, Request(w, b, Waiting));
    case Grant(id) => TotalPut(s.requests, Weight, id, s.requests[id].(stage := Owned));
    case GiveUp(id) => TotalPut(s.requests, Weight, id, s.requests[id].(stage := Gone));
    case Fail(id) => TotalPut(s.requests, Weight, id, s.requests[id].(stage := Gone));
    case Move(id) => TotalPut(s.requests, Weight, id, s.requests[id].(stage := Moved));
    case CallerLeaves(id) =>
    case Finish(id) => TotalPut(s.requests, Weight, id, s.requests[id].(stage := Gone));
    case NestedStart(id) =>
    case NestedEnd(id) =>
  }

  lemma {:induction false} AlwaysConserved(run: seq<State>, i: nat)
    requires Run(run) && i < |run|
    ensures Conserved(run[i]) && run[i].capacity == run[0].capacity
    decreases i
  {
    hide Conserved, Apply;
    if i == 0 {
      NothingHeld(run[0]);
    } else {
      AlwaysConserved(run, i - 1);
      assert Next(run[i - 1], run[i]);
      var step :| Can(run[i - 1], step) && run[i] == Apply(run[i - 1], step);
      StepConserves(run[i - 1], step);
    }
  }

  lemma NothingHeld(s: State)
    requires Idle(s)
    ensures Conserved(s)
  {
  }

  /** Requests whose closure or body is still alive, each counted once. */
  function InExecution(r: Request): nat { if r.stage == Moved then 1 else 0 }

  /** With every weight at least one, never more closures run than there are permits, even
      after their callers timed out. */
  lemma ExecutionsBounded(run: seq<State>, i: nat)
    requires Run(run) && i < |run| && forall id :: id in run[i].requests ==> run[i].requests[id].weight >= 1
    ensures Total(run[i].requests, InExecution) <= run[0].capacity
  {
    hide Total, Run;
    AlwaysConserved(run, i);
    TotalMonotone(run[i].requests, InExecution, Weight);
  }

  /** Once nothing owns a permit, all of them are back: none leaks on any path. */
  lemma AllPermitsReturn(run: seq<State>, i: nat)
    requires Run(run) && i < |run| && forall id :: id in run[i].requests ==> !Holds(run[i].requests[id])
    ensures run[i].free == run[0].capacity
  {
    hide Total, Run;
    AlwaysConserved(run, i);
    TotalMonotone(run[i].requests, Weight, r => 0);
    TotalOfZero(run[i].requests);
  }

  lemma {:induction false} TotalOfZero(m: map<Id, Request>)
    ensures Total(m, r => 0) == 0
    decreases |m|
  {
    if m != map[] {
      var id :| id in m;
      TotalWithout(m, r => 0, id);
      TotalOfZero(m - {id});
    }
  }

  // ---- each permit, over a whole run ----

  predicate By(s: State, step: Step, s': State) { Can(s, step) && s' == Apply(s, step) }

  /** A run with the step taken from each state to the next. */
  ghost predicate Trace(run: seq<State>, steps: seq<Step>) {
    && |run| == |steps| + 1 && Idle(run[0])
    && forall i :: 0 <= i < |steps| ==> By(run[i], steps[i], run[i + 1])
  }

  /** Every run is the run of some steps. */
  lemma {:induction false} RunHasTrace(run: seq<State>) returns (steps: seq<Step>)
    requires Run(run)
    ensures Trace(run, steps)
  {
    hide By, Next;
    if |run| == 1 {
      steps := [];
    } else {
      var n := |run| - 1;
      var init := run[..n];
      assert forall i :: 0 <= i < n ==> init[i] == run[i];
      var before := RunHasTrace(init);
      var step := SomeStep(run[n - 1], run[n]);
      steps := before + [step];
      forall i | 0 <= i < n ensures By(run[i], steps[i], run[i + 1]) {
        if i < n - 1 { assert By(init[i], before[i], init[i + 1]); }
      }
    }
  }

  lemma SomeStep(s: State, s': State) returns (step: Step)
    requires Next(s, s')
    ensures By(s, step, s')
  {
    step :| Can(s, step) && s' == Apply(s, step);
  }

  predicate Held(s: State, id: Id) { id in s.requests && Holds(s.requests[id]) }

  predicate Takes(step: Step, id: Id) { step == Grant(id) }

  predicate Gives(step: Step, id: Id) { step == Fail(id) || step == Finish(id) }

  function Count(steps: seq<Step>, p: Step -> bool): nat {
    if steps == [] then 0 else Count(steps[..|steps| - 1], p) + (if p(steps[|steps| - 1]) then 1 else 0)
  }

  function TakenBy(steps: seq<Step>, id: Id): nat { Count(steps, step => Takes(step, id)) }

  function GivenBy(steps: seq<Step>, id: Id): nat { Count(steps, step => Gives(step, id)) }

  lemma CountStep(steps: seq<Step>, j: nat, id: Id)
    requires j < |steps|
    ensures TakenBy(steps[..j + 1], id) == TakenBy(steps[..j], id) + (if Takes(steps[j], id) then 1 else 0)
    ensures GivenBy(steps[..j + 1], id) == GivenBy(steps[..j], id) + (if Gives(steps[j], id) then 1 else 0)
  {
    assert steps[..j + 1][..j] == steps[..j];
  }

  /** What the ledger of one request reads, by the stage it is in. */
  ghost predicate Balanced(s: State, id: Id, taken: nat, given: nat) {
    && taken == given + (if Held(s, id) then 1 else 0) && taken <= 1
    && (id !in s.requests || s.requests[id].stage == Waiting ==> taken == 0)
    && (Nested(s, id) > 0 ==> taken == 1)
  }

  /** In every state of every run a request has taken its permit at most once, and has given it back
      exactly once if it took it and no longer holds it; nested work runs only under a request that
      took one. */
  lemma {:induction false} Ledger(run: seq<State>, steps: seq<Step>, id: Id, j: nat)
    requires Trace(run, steps) && j <= |steps|
    ensures Balanced(run[j], id, TakenBy(steps[..j], id), GivenBy(steps[..j], id))
    decreases j
  {
    hide Count;
    if j == 0 {
      NoSteps(id);
    } else {
      Ledger(run, steps, id, j - 1);
      CountStep(steps, j - 1, id);
      hide TakenBy, GivenBy;
      assert By(run[j - 1], steps[j - 1], run[j - 1 + 1]);
      LedgerStep(run[j - 1], steps[j - 1], id, TakenBy(steps[..j - 1], id), GivenBy(steps[..j - 1], id));
    }
  }

  lemma NoSteps(id: Id)
    ensures TakenBy([], id) == GivenBy([], id) == 0
  {
  }

  lemma LedgerStep(s: State, step: Step, id: Id, taken: nat, given: nat)
    requires Can(s, step) && Balanced(s, id, taken, given)
    ensures Balanced(Apply(s, step), id, taken + (if Takes(step, id) then 1 else 0), given + (if Gives(step, id) then 1 else 0))
  {
  }

  lemma WeightKept(s: State, step: Step, id: Id)
    requires Can(s, step) && id in s.requests
    ensures id in Apply(s, step).requests && Apply(s, step).requests[id].weight == s.requests[id].weight
  {
  }

  lemma LastHeldStep(s: State, step: Step, id: Id)
    requires Can(s, step) && Held(s, id) && !Held(Apply(s, step), id)
    ensures Gives(step, id) && Apply(s, step).free == s.free + s.requests[id].weight
  {
  }

  lemma KeptByOthers(s: State, step: Step, id: Id)
    requires Can(s, step) && Held(s, id) && Held(Apply(s, step), id)
    ensures !Takes(step, id) && !Gives(step, id)
  {
  }

  /** However long a request holds its permit, whoever leaves and whatever runs nested meanwhile, it
      ends by exactly one step of that request: its failure before the hand-over, or the end of its
      closure or body. That step returns exactly the weight taken. */
  lemma {:induction false} PermitReturnsOnce(run: seq<State>, steps: seq<Step>, id: Id, i: nat, j: nat) returns (k: nat)
    requires Trace(run, steps) && i < j <= |steps| && Held(run[i], id) && !Held(run[j], id)
    ensures i <= k < j && Gives(steps[k], id) && run[k + 1].free == run[k].free + run[i].requests[id].weight
    ensures forall l :: i <= l < j && l != k ==> !Takes(steps[l], id) && !Gives(steps[l], id)
    decreases j - i
  {
    hide Apply, Can, Held, Takes, Gives;
    assert By(run[i], steps[i], run[i + 1]);
    HeldIsKnown(run[i], id);
    WeightKept(run[i], steps[i], id);
    if Held(run[i + 1], id) {
      KeptByOthers(run[i], steps[i], id);
      k := PermitReturnsOnce(run, steps, id, i + 1, j);
    } else {
      k := i;
      LastHeldStep(run[i], steps[i], id);
      NothingAfter(run, steps, id, i, j);
    }
  }

  lemma HeldIsKnown(s: State, id: Id)
    requires Held(s, id)
    ensures id in s.requests
  {
  }

  /** After the step that gave the permit back the request neither takes nor gives again. */
  lemma NothingAfter(run: seq<State>, steps: seq<Step>, id: Id, k: nat, j: nat)
    requires Trace(run, steps) && k < j <= |steps| && Gives(steps[k], id)
    ensures forall l :: k < l < j ==> !Takes(steps[l], id) && !Gives(steps[l], id)
  {
    hide Trace, Takes, Gives, TakenBy, GivenBy;
    forall l | k < l < j ensures !Takes(steps[l], id) && !Gives(steps[l], id) {
      Ledger(run, steps, id, k + 1);
      Ledger(run, steps, id, l + 1);
      CountStep(steps, k, id);
      CountStep(steps, l, id);
      CountGrows(steps, id, k + 1, l);
    }
  }

  lemma {:induction false} CountGrows(steps: seq<Step>, id: Id, i: nat, j: nat)
    requires i <= j <= |steps|
    ensures TakenBy(steps[..i], id) <= TakenBy(steps[..j], id) && GivenBy(steps[..i], id) <= GivenBy(steps[..j], id)
    decreases j
  {
    if i < j {
      CountGrows(steps, id, i, j - 1);
      CountStep(steps, j - 1, id);
    }
  }

  /** And it takes it by exactly one step: the grant, of exactly its weight. */
  lemma {:induction false} PermitTakenOnce(run: seq<State>, steps: seq<Step>, id: Id, j: nat) returns (k: nat)
    requires Trace(run, steps) && j <= |steps| && Held(run[j], id)
    ensures k < j && Takes(steps[k], id) && run[k].free == run[k + 1].free + run[j].requests[id].weight
    ensures forall l :: 0 <= l < j && l != k ==> !Takes(steps[l], id) && !Gives(steps[l], id)
    decreases j
  {
    hide Apply, Can, Takes, Gives;
    assert j > 0;
    assert By(run[j - 1], steps[j - 1], run[j - 1 + 1]);
    if Held(run[j - 1], id) {
      KeptByOthers(run[j - 1], steps[j - 1], id);
      WeightKept(run[j - 1], steps[j - 1], id);
      k := PermitTakenOnce(run, steps, id, j - 1);
    } else {
      k := j - 1;
      FirstHeldStep(run[k], steps[k], id);
      NothingBefore(run, steps, id, k);
    }
  }

  lemma FirstHeldStep(s: State, step: Step, id: Id)
    requires Can(s, step) && !Held(s, id) && Held(Apply(s, step), id)
    ensures Takes(step, id) && s.free == Apply(s, step).free + Apply(s, step).requests[id].weight
  {
  }

  lemma NothingBefore(run: seq<State>, steps: seq<Step>, id: Id, k: nat)
    requires Trace(run, steps) && k < |steps| && Takes(steps[k], id)
    ensures forall l :: 0 <= l < k ==> !Takes(steps[l], id) && !Gives(steps[l], id)
  {
    hide Trace, Takes, Gives, TakenBy, GivenBy;
    forall l | 0 <= l < k ensures !Takes(steps[l], id) && !Gives(steps[l], id) {
      Ledger(run, steps, id, k + 1);
      Ledger(run, steps, id, l + 1);
      CountStep(steps, k, id);
      CountStep(steps, l, id);
      CountGrows(steps, id, l + 1, k);
    }
  }

  /** Bytes still resident for a request. */
  function HeldBytes(r: Request): nat { if Holds(r) then r.bytes else 0 }

  /** If every request's weight covers its bytes in units of `unit`, the bytes held in any
      state of any run fit the capacity. */
  lemma HeldBytesBounded(run: seq<State>, i: nat, unit: nat)
    requires Run(run) && i < |run|
    requires Covered(run[i].requests, unit)
    ensures Total(run[i].requests, HeldBytes) <= run[0].capacity * unit
  {
    hide Total, Run, Covered, HeldBytes, Weight;
    AlwaysConserved(run, i);
    var m := run[i].requests;
    ScaledTotal(m, unit);
    TimesGrows(Total(m, Weight), run[i].capacity, unit);
  }

  /** `weight` permits of `unit` bytes cover `bytes`. */
  predicate Scales(bytes: nat, weight: nat, unit: nat) { bytes <= Times(weight, unit) }

  ghost predicate Covered(m: map<Id, Request>, unit: nat) {
    forall id :: id in m ==> Scales(m[id].bytes, m[id].weight, unit)
  }

  lemma {:induction false} ScaledTotal(m: map<Id, Request>, unit: nat)
    requires Covered(m, unit)
    ensures Scales(Total(m, HeldBytes), Total(m, Weight), unit)
    decreases |m|
  {
    if m == map[] {
      NothingScales(unit);
    } else {
      hide Scales, Times, HeldBytes, Weight, Covered, Total;
      var id :| id in m;
      WithoutOne(m, unit, id);
      ScaledTotal(m - {id}, unit);
      TotalWithout(m, HeldBytes, id);
      TotalWithout(m, Weight, id);
      ScalesSum(HeldBytes(m[id]), Weight(m[id]), Total(m - {id}, HeldBytes), Total(m - {id}, Weight), unit);
    }
  }

  lemma NothingScales(unit: nat)
    ensures Scales(Total(map[], HeldBytes), Total(map[], Weight), unit)
  {
  }

  lemma WithoutOne(m: map<Id, Request>, unit: nat, id: Id)
    requires Covered(m, unit) && id in m
    ensures |m - {id}| < |m| && Covered(m - {id}, unit) && Scales(HeldBytes(m[id]), Weight(m[id]), unit)
  {
    assert (m - {id}).Keys == m.Keys - {id};
  }

  lemma ScalesSum(a: nat, x: nat, b: nat, y: nat, unit: nat)
    requires Scales(a, x, unit) && Scales(b, y, unit)
    ensures Scales(a + b, x + y, unit)
  {
    assert (x + y) * unit == x * unit + y * unit;
  }
}

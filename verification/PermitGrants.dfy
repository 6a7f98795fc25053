/** Who can be granted a permit at all: exactly the requests no heavier than the whole capacity. */
module PermitGrants {
  import opened Permits

  function Holders(s: State): set<Id> { set id | id in s.requests && Holds(s.requests[id]) }

  function Last(run: seq<State>): State
    requires run != []
  {
    run[|run| - 1]
  }

  lemma RunOn(run: seq<State>, step: Step)
    requires Run(run) && Can(Last(run), step)
    ensures Run(run + [Apply(Last(run), step)])
  {
    hide Can, Apply;
    var more := run + [Apply(Last(run), step)];
    forall i | 0 < i < |more| ensures Next(more[i - 1], more[i]) {
      if i == |run| { assert more[i - 1] == Last(run); }
    }
  }

  /** A holder can give its permit back, which changes nothing for the others. */
  lemma HolderReturns(s: State, holder: Id, id: Id) returns (step: Step)
    requires holder in Holders(s) && At(s, id, Waiting)
    ensures Can(s, step) && Holders(Apply(s, step)) == Holders(s) - {holder}
    ensures At(Apply(s, step), id, Waiting) && Apply(s, step).requests[id].weight == s.requests[id].weight
  {
    step := if s.requests[holder].stage == Owned then Fail(holder) else Finish(holder);
  }

  /** A request that waits and is no heavier than the capacity can still be granted, whatever has
      happened: the run can go on so that it holds its permit. */
  lemma {:induction false} WaitingCanBeGranted(run: seq<State>, id: Id) returns (longer: seq<State>)
    requires Run(run) && At(Last(run), id, Waiting) && Last(run).requests[id].weight <= run[0].capacity
    ensures Run(longer) && run <= longer && At(Last(longer), id, Owned)
    decreases |Holders(Last(run))|
  {
    RunNotEmpty(run);
    hide Run, Apply, Can;
    var s := Last(run);
    if Holders(s) == {} {
      NobodyHolds(s);
      AllPermitsReturn(run, |run| - 1);
      GrantsNow(s, id);
      RunOn(run, Grant(id));
      longer := run + [Apply(s, Grant(id))];
    } else {
      var holder :| holder in Holders(s);
      var step := HolderReturns(s, holder, id);
      RunOn(run, step);
      longer := WaitingCanBeGranted(run + [Apply(s, step)], id);
    }
  }

  lemma NobodyHolds(s: State)
    requires Holders(s) == {}
    ensures forall id :: id in s.requests ==> !Holds(s.requests[id])
  {
    forall id | id in s.requests ensures !Holds(s.requests[id]) { assert id !in Holders(s); }
  }

  lemma RunNotEmpty(run: seq<State>)
    requires Run(run)
    ensures run != []
  {
  }

  lemma GrantsNow(s: State, id: Id)
    requires At(s, id, Waiting) && s.requests[id].weight <= s.free
    ensures Can(s, Grant(id)) && At(Apply(s, Grant(id)), id, Owned)
  {
  }

  /** A request heavier than the capacity never holds a permit. */
  lemma TooHeavyNeverHolds(run: seq<State>, i: nat, id: Id)
    requires Run(run) && i < |run| && Held(run[i], id)
    ensures run[i].requests[id].weight <= run[0].capacity
  {
    hide Run, Total;
    AlwaysConserved(run, i);
    TotalWithout(run[i].requests, Weight, id);
  }

  /** Any new request no heavier than the capacity can arrive, be granted, run and give its permit back. */
  lemma AnyRequestCanRun(run: seq<State>, id: Id, weight: nat, bytes: nat) returns (longer: seq<State>)
    requires Run(run) && id !in Last(run).requests && weight <= run[0].capacity
    ensures Run(longer) && run <= longer && |longer| >= 2
    ensures At(longer[|longer| - 2], id, Moved) && At(Last(longer), id, Gone)
    ensures Last(longer).free == longer[|longer| - 2].free + Last(longer).requests[id].weight
  {
    RunNotEmpty(run);
    hide Run;
    RunOn(run, Arrive(id, weight, bytes));
    longer := run + [Apply(Last(run), Arrive(id, weight, bytes))];
    longer := WaitingCanBeGranted(longer, id);
    RunOn(longer, Move(id));
    longer := longer + [Apply(Last(longer), Move(id))];
    RunOn(longer, Finish(id));
    longer := longer + [Apply(Last(longer), Finish(id))];
  }
}

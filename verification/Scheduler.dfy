/** Runs of the scheduler: follow `Next`, commit what it chose, repeat. */
module Scheduler {
  import opened Bytes
  import opened Domain
  import opened Clock

  datatype World = World(state: State, pending: seq<Pending>)

  /** One committed cycle: the plan, what it added to the pending set, how many events it published. */
  datatype Label = Label(plan: Plan, added: seq<Pending>, events: nat)

  /** What is left once every item at or before the cut has been consumed. */
  function Remaining(pending: seq<Pending>, cut: Coordinate): (r: seq<Pending>)
    ensures forall p :: p in r <==> p in pending && Before(cut, p.eligibility)
    ensures |r| <= |pending|
    ensures (exists p :: p in pending && !Before(cut, p.eligibility)) ==> |r| < |pending|
  {
    if pending == [] then []
    else
      assert pending == [pending[0]] + pending[1..];
      if Before(cut, pending[0].eligibility) then [pending[0]] + Remaining(pending[1..], cut)
      else Remaining(pending[1..], cut)
  }

  /** The clock a WORK commit writes. */
  function WorkClock(state: State, ordinal: U64, events: nat): (r: State)
    requires WorkGuard(state, ordinal, events)
  {
    State(state.instant, state.revision + 1, state.nextLogicalSequence + events, ordinal)
  }

  /** The checks a WORK commit makes before it touches the clock. */
  predicate WorkGuard(state: State, ordinal: U64, events: nat) {
    && ordinal <= MAX_I64
    && state.lastOrdinal < ordinal
    && state.revision != MAX_U64
    && events <= MAX_U64 - state.nextLogicalSequence
  }

  ghost predicate AtOrAfter(added: seq<Pending>, floor: Coordinate) {
    forall p :: p in added ==> !Before(p.eligibility, floor)
  }

  ghost predicate WorkStep(w: World, l: Label, w': World) {
    && l.plan.kind == Work
    && WorkGuard(w.state, l.plan.originOrdinal, l.events)
    && SuccessorFloor(l.plan).Ok?
    && AtOrAfter(l.added, SuccessorFloor(l.plan).value)
    && w'.state == WorkClock(w.state, l.plan.originOrdinal, l.events)
    && w'.pending == Remaining(w.pending, l.plan.target) + l.added
  }

  /** A clock advance consumes nothing. It publishes two temporal events and the trigger
      events its builder appends after them, all counted in `events`. */
  ghost predicate AdvanceStep(w: World, l: Label, w': World) {
    && l.plan.kind == ClockAdvance
    && l.events >= 2
    && SuccessorFloor(l.plan).Ok?
    && AtOrAfter(l.added, SuccessorFloor(l.plan).value)
    && ApplyAdvance(w.state, l.plan).Ok?
    && w'.state == ApplyAdvance(w.state, l.plan).value.(
         nextLogicalSequence := (w.state.nextLogicalSequence + l.events) % TWO_TO_64)
    && w'.pending == w.pending + l.added
  }

  ghost predicate Step(w: World, l: Label, w': World) {
    && NextPlan(w.state, w.pending) == Run(l.plan)
    && (WorkStep(w, l, w') || AdvanceStep(w, l, w'))
  }

  ghost predicate IsRun(worlds: seq<World>, labels: seq<Label>) {
    && |worlds| == |labels| + 1
    && forall i :: 0 <= i < |labels| ==> Step(worlds[i], labels[i], worlds[i + 1])
  }

  /** Nothing pending is at or before the last committed cycle. */
  ghost predicate NonStale(w: World) {
    && -1 <= w.state.lastOrdinal
    && forall p :: p in w.pending ==> AfterClock(w.state, p.eligibility)
  }

  ghost predicate AfterClock(state: State, c: Coordinate) {
    state.instant < c.instant || (state.instant == c.instant && state.lastOrdinal < c.ordinal)
  }

  // ----- every step -----

  /** From a non-stale world the only failure left is a clock whose ordinal is spent. */
  lemma FailureIsExhaustion(w: World)
    requires NonStale(w)
    ensures NextPlan(w.state, w.pending).Failed? <==> w.state.lastOrdinal == MAX_I64
    ensures NextPlan(w.state, w.pending).Failed? ==> NextPlan(w.state, w.pending).error == InvalidClock
    ensures NextPlan(w.state, w.pending).Idle? <==> w.pending == [] && w.state.lastOrdinal != MAX_I64
  {
    if w.pending != [] {
      var earliest := Earliest(w.pending);
      var p :| p in w.pending && p.eligibility == earliest;
      assert AfterClock(w.state, p.eligibility);
    }
  }

  /** What a chosen plan means for the pending set. */
  lemma PlanMeaning(w: World, plan: Plan)
    requires NonStale(w) && NextPlan(w.state, w.pending) == Run(plan)
    ensures exists p :: p in w.pending && p.eligibility == plan.target
    ensures forall p :: p in w.pending ==> !Before(p.eligibility, plan.target)
    ensures AfterClock(w.state, plan.target)
    ensures plan.kind == Work <==> plan.target.instant == w.state.instant
    ensures plan.kind == Work ==> Coordinate(plan.from, plan.originOrdinal) == plan.target
  {
    var p :| p in w.pending && p.eligibility == Earliest(w.pending);
  }

  lemma StepKeepsNonStale(w: World, l: Label, w': World)
    requires NonStale(w) && Step(w, l, w')
    ensures NonStale(w')
  {
    PlanMeaning(w, l.plan);
    forall p | p in w'.pending ensures AfterClock(w'.state, p.eligibility) {
      if p in l.added {
        assert !Before(p.eligibility, SuccessorFloor(l.plan).value);
      } else {
        assert p in w.pending;
      }
    }
  }

  /** The clock moves strictly forward and the revision counts commits. */
  lemma StepMovesForward(w: World, l: Label, w': World)
    requires NonStale(w) && Step(w, l, w')
    ensures w.state.instant < w'.state.instant
         || (w.state.instant == w'.state.instant && w.state.lastOrdinal < w'.state.lastOrdinal)
    ensures w'.state.revision == (w.state.revision + 1) % TWO_TO_64
    ensures w'.state.nextLogicalSequence == (w.state.nextLogicalSequence + l.events) % TWO_TO_64
  {
    PlanMeaning(w, l.plan);
  }

  /** A WORK cycle consumes exactly the items eligible at its own coordinate: nothing is
      left behind and nothing later is taken. */
  lemma WorkConsumesItsCoordinate(w: World, l: Label, w': World, p: Pending)
    requires NonStale(w) && Step(w, l, w') && l.plan.kind == Work && p in w.pending
    ensures p in Remaining(w.pending, l.plan.target) <==> p.eligibility != l.plan.target
    ensures p.eligibility == l.plan.target ==> p !in Remaining(w.pending, l.plan.target)
  {
    PlanMeaning(w, l.plan);
  }

  /** No admitted unit can exist at the origin of a clock advance. */
  lemma AdvanceCohortIsEmpty(w: World, l: Label, w': World)
    requires NonStale(w) && Step(w, l, w') && l.plan.kind == ClockAdvance
    ensures forall p :: p in w.pending ==> Before(Coordinate(l.plan.from, l.plan.originOrdinal), p.eligibility)
  {
    PlanMeaning(w, l.plan);
  }

  /** After an advance comes WORK at the new instant; it is at the planned target exactly
      when the advance added nothing before that target. */
  lemma AdvanceThenWork(w: World, l: Label, w': World)
    requires NonStale(w) && Step(w, l, w') && l.plan.kind == ClockAdvance
    ensures NextPlan(w'.state, w'.pending).Run?
    ensures NextPlan(w'.state, w'.pending).plan.kind == Work
    ensures NextPlan(w'.state, w'.pending).plan.target == l.plan.target
       <==> forall p :: p in l.added ==> !Before(p.eligibility, l.plan.target)
  {
    PlanMeaning(w, l.plan);
    StepKeepsNonStale(w, l, w');
    FailureIsExhaustion(w');
    var waiting :| waiting in w.pending && waiting.eligibility == l.plan.target;
    assert waiting in w'.pending;
    var plan := NextPlan(w'.state, w'.pending).plan;
    PlanMeaning(w', plan);
    assert !Before(waiting.eligibility, plan.target);
    var chosen :| chosen in w'.pending && chosen.eligibility == plan.target;
  }

  // ----- every run -----

  /** No run from a non-stale start ever meets stale pending work. */
  lemma {:induction false} NeverStale(worlds: seq<World>, labels: seq<Label>)
    requires IsRun(worlds, labels) && NonStale(worlds[0])
    ensures forall i :: 0 <= i < |worlds| ==> NonStale(worlds[i])
    ensures forall i :: 0 <= i < |worlds| ==>
              NextPlan(worlds[i].state, worlds[i].pending) != Failed(StalePending)
  {
    if labels != [] {
      var n := |labels| - 1;
      NeverStale(worlds[..n + 1], labels[..n]);
      assert worlds[..n + 1][n] == worlds[n];
      assert Step(worlds[n], labels[n], worlds[n + 1]);
      StepKeepsNonStale(worlds[n], labels[n], worlds[n + 1]);
    }
    forall i | 0 <= i < |worlds|
      ensures NonStale(worlds[i])
      ensures NextPlan(worlds[i].state, worlds[i].pending) != Failed(StalePending)
    {
      assert i == |labels| || worlds[i] == worlds[..|labels|][i];
      FailureIsExhaustion(worlds[i]);
    }
  }

  /** A clock stuck at the largest ordinal was put there by the WORK commit before it,
      and no pending set can move it again. */
  lemma ExhaustionIsForGood(w: World, l: Label, w': World)
    requires NonStale(w) && Step(w, l, w')
    ensures NextPlan(w'.state, w'.pending).Failed? <==> l.plan.kind == Work && l.plan.originOrdinal == MAX_I64
    ensures NextPlan(w'.state, w'.pending).Failed? ==> forall pending :: NextPlan(w'.state, pending).Failed?
  {
    StepKeepsNonStale(w, l, w');
    FailureIsExhaustion(w');
  }

  // ----- runs that add nothing -----

  ghost predicate Quiet(labels: seq<Label>) {
    forall i :: 0 <= i < |labels| ==> labels[i].added == []
  }

  ghost predicate WorkWaiting(w: World) {
    exists p :: p in w.pending && p.eligibility.instant == w.state.instant
  }

  /** Two cycles for every pending item, one fewer when the clock is already there. */
  ghost function Distance(w: World): int {
    2 * |w.pending| - (if WorkWaiting(w) then 1 else 0)
  }

  lemma QuietStepComesCloser(w: World, l: Label, w': World)
    requires NonStale(w) && Step(w, l, w') && l.added == []
    ensures Distance(w') < Distance(w)
  {
    PlanMeaning(w, l.plan);
    var waiting :| waiting in w.pending && waiting.eligibility == l.plan.target;
    if l.plan.kind == Work {
      assert w'.pending == Remaining(w.pending, l.plan.target);
      assert WorkWaiting(w);
    } else {
      assert w'.pending == w.pending;
      assert WorkWaiting(w');
      assert !WorkWaiting(w);
    }
  }

  /** With nothing added, a run has at most two cycles per pending item, and as long as
      something is pending and the ordinals are not spent there is a next cycle. */
  lemma {:induction false} QuietRunDrains(worlds: seq<World>, labels: seq<Label>)
    requires IsRun(worlds, labels) && NonStale(worlds[0]) && Quiet(labels)
    ensures |labels| + Distance(worlds[|labels|]) <= Distance(worlds[0])
    ensures |labels| <= 2 * |worlds[0].pending|
    ensures NonStale(worlds[|labels|])
    ensures |labels| == 2 * |worlds[0].pending| ==> worlds[|labels|].pending == []
    ensures worlds[|labels|].pending != [] && worlds[|labels|].state.lastOrdinal < MAX_I64 ==>
              NextPlan(worlds[|labels|].state, worlds[|labels|].pending).Run?
  {
    var n := |labels|;
    if n > 0 {
      assert Step(worlds[0], labels[0], worlds[1]);
      StepKeepsNonStale(worlds[0], labels[0], worlds[1]);
      QuietStepComesCloser(worlds[0], labels[0], worlds[1]);
      forall i | 0 <= i < n - 1 ensures Step(worlds[1..][i], labels[1..][i], worlds[1..][i + 1]) {
        assert Step(worlds[i + 1], labels[i + 1], worlds[i + 2]);
      }
      QuietRunDrains(worlds[1..], labels[1..]);
    }
    FailureIsExhaustion(worlds[n]);
    assert WorkWaiting(worlds[n]) ==> worlds[n].pending != [];
  }

  /** The coordinates at which WORK ran, in order. */
  ghost function Worked(labels: seq<Label>): seq<Coordinate> {
    if labels == [] then []
    else (if labels[0].plan.kind == Work then [labels[0].plan.target] else []) + Worked(labels[1..])
  }

  lemma {:induction false} QuietWorkStaysPending(worlds: seq<World>, labels: seq<Label>, c: Coordinate)
    requires IsRun(worlds, labels) && NonStale(worlds[0]) && Quiet(labels)
    ensures c in Worked(labels) ==> exists p :: p in worlds[0].pending && p.eligibility == c
    ensures worlds[|labels|].pending == [] ==>
              (exists p :: p in worlds[0].pending && p.eligibility == c) ==> c in Worked(labels)
  {
    if labels != [] {
      var w, l, w' := worlds[0], labels[0], worlds[1];
      assert Step(w, l, w');
      StepKeepsNonStale(w, l, w');
      PlanMeaning(w, l.plan);
      forall i | 0 <= i < |labels| - 1 ensures Step(worlds[1..][i], labels[1..][i], worlds[1..][i + 1]) {
        assert Step(worlds[i + 1], labels[i + 1], worlds[i + 2]);
      }
      QuietWorkStaysPending(worlds[1..], labels[1..], c);
      if p :| p in w.pending && p.eligibility == c {
        if p !in w'.pending {
          assert l.plan.kind == Work;
          WorkConsumesItsCoordinate(w, l, w', p);
        }
      }
    }
  }

  /** A drained quiet run works each distinct pending coordinate once, in order, and
      never makes a cycle for a coordinate nothing is pending at. */
  lemma {:induction false} QuietRunWorksEachCoordinateOnce(worlds: seq<World>, labels: seq<Label>)
    requires IsRun(worlds, labels) && NonStale(worlds[0]) && Quiet(labels)
    ensures forall i, j :: 0 <= i < j < |Worked(labels)| ==> Before(Worked(labels)[i], Worked(labels)[j])
    ensures forall c :: c in Worked(labels) ==> exists p :: p in worlds[0].pending && p.eligibility == c
    ensures worlds[|labels|].pending == [] ==>
              forall p :: p in worlds[0].pending ==> p.eligibility in Worked(labels)
  {
    forall c ensures c in Worked(labels) ==> exists p :: p in worlds[0].pending && p.eligibility == c {
      QuietWorkStaysPending(worlds, labels, c);
    }
    forall p | worlds[|labels|].pending == [] && p in worlds[0].pending ensures p.eligibility in Worked(labels) {
      QuietWorkStaysPending(worlds, labels, p.eligibility);
    }
    if labels != [] {
      var w, l, w' := worlds[0], labels[0], worlds[1];
      assert Step(w, l, w');
      StepKeepsNonStale(w, l, w');
      PlanMeaning(w, l.plan);
      forall i | 0 <= i < |labels| - 1 ensures Step(worlds[1..][i], labels[1..][i], worlds[1..][i + 1]) {
        assert Step(worlds[i + 1], labels[i + 1], worlds[i + 2]);
      }
      QuietRunWorksEachCoordinateOnce(worlds[1..], labels[1..]);
      if l.plan.kind == Work {
        var rest := Worked(labels[1..]);
        forall k | 0 <= k < |rest| ensures Before(l.plan.target, rest[k]) {
          assert rest[k] in rest;
          assert worlds[1..][0] == w';
          var p :| p in w'.pending && p.eligibility == rest[k];
        }
      }
    }
  }
}

/** The logical clock: which coordinate runs next, and how the clock moves. */
module Clock {
  import opened Bytes
  import opened Domain

  /** `lastOrdinal` is -1 when no cycle was committed at `instant`. */
  datatype State = State(instant: I64, revision: U64, nextLogicalSequence: U64, lastOrdinal: I64)

  datatype Kind = Work | ClockAdvance

  datatype Plan = Plan(kind: Kind, from: I64, to: I64, originOrdinal: U64, target: Coordinate)

  /** An occurrence, activation, round or input that has not been consumed yet. */
  datatype Pending = Pending(id: Bytes, eligibility: Coordinate)

  datatype Error = StalePending | InvalidClock | InvalidAdvance

  datatype Choice = Idle | Run(plan: Plan) | Failed(error: Error)

  function CoordinateAfterState(state: State): Result<Coordinate, Error> {
    if state.lastOrdinal < -1 then Err(InvalidClock)
    else if state.lastOrdinal >= MAX_I64 then Err(InvalidClock)
    else Ok(Coordinate(state.instant, state.lastOrdinal + 1))
  }

  /** The least eligibility of a non-empty list. */
  function Earliest(pending: seq<Pending>): (c: Coordinate)
    requires pending != []
    ensures exists p :: p in pending && p.eligibility == c
    ensures forall p :: p in pending ==> !Before(p.eligibility, c)
  {
    var last := pending[|pending| - 1];
    if |pending| == 1 then last.eligibility
    else
      var c := Earliest(pending[..|pending| - 1]);
      assert pending == pending[..|pending| - 1] + [last];
      if Compare(last.eligibility, c) < 0 then last.eligibility else c
  }

  /** What the scan over `pending` decides. */
  function NextPlan(state: State, pending: seq<Pending>): Choice {
    match CoordinateAfterState(state)
    case Err(e) => Failed(e)
    case Ok(next) =>
      if pending == [] then Idle
      else
        var smallest := Earliest(pending);
        if Compare(smallest, next) < 0 then Failed(StalePending)
        else if smallest.instant == state.instant then
          Run(Plan(Work, state.instant, state.instant, smallest.ordinal, smallest))
        else
          Run(Plan(ClockAdvance, state.instant, smallest.instant, next.ordinal, smallest))
  }

  /** Chooses the next cycle. The scan keeps the smallest eligibility seen so far;
      the branch after it that rejects an instant in the past is dead code. */
  method Next(state: State, pending: seq<Pending>) returns (choice: Choice)
    ensures choice == NextPlan(state, pending)
  {
    var after := CoordinateAfterState(state);
    if after.Err? {
      return Failed(after.error);
    }
    var next := after.value;
    if |pending| == 0 {
      return Idle;
    }
    var smallest := pending[0].eligibility;
    for i := 1 to |pending|
      invariant smallest == Earliest(pending[..i])
    {
      assert pending[..i + 1][..i] == pending[..i];
      if Compare(pending[i].eligibility, smallest) < 0 {
        smallest := pending[i].eligibility;
      }
    }
    assert pending[..|pending|] == pending;
    if Compare(smallest, next) < 0 {
      return Failed(StalePending);
    }
    if smallest.instant == state.instant {
      return Run(Plan(Work, state.instant, state.instant, smallest.ordinal, smallest));
    }
    if smallest.instant < state.instant {
      assert false;
    }
    return Run(Plan(ClockAdvance, state.instant, smallest.instant, next.ordinal, smallest));
  }

  /** Publication-time recheck of a provisional plan. */
  method Confirm(state: State, pending: seq<Pending>, proposal: Plan) returns (failure: Option<Error>)
    ensures failure == None <==> NextPlan(state, pending) == Run(proposal)
    ensures failure.Some? && NextPlan(state, pending).Failed? ==> failure.value == NextPlan(state, pending).error
    ensures failure.Some? && !NextPlan(state, pending).Failed? ==> failure.value == InvalidAdvance
  {
    var recomputed := Next(state, pending);
    if recomputed.Failed? {
      return Some(recomputed.error);
    }
    if recomputed.Idle? || recomputed.plan != proposal {
      return Some(InvalidAdvance);
    }
    return None;
  }

  /** The first coordinate a successor created under `plan` may be eligible at. */
  function SuccessorFloor(plan: Plan): Result<Coordinate, Error> {
    if plan.kind == ClockAdvance then
      if plan.to <= plan.from || plan.target.instant != plan.to then Err(InvalidAdvance)
      else Ok(Coordinate(plan.to, 0))
    else if plan.originOrdinal == MAX_U64 then Err(InvalidAdvance)
    else Ok(Coordinate(plan.from, plan.originOrdinal + 1))
  }

  /** The revision and the sequence are `uint64` fields and wrap around. */
  function ApplyAdvance(state: State, plan: Plan): Result<State, Error> {
    if plan.kind != ClockAdvance || plan.from != state.instant then Err(InvalidAdvance)
    else if plan.to <= plan.from then Err(InvalidAdvance)
    else Ok(State(plan.to, (state.revision + 1) % TWO_TO_64, (state.nextLogicalSequence + 2) % TWO_TO_64, -1))
  }

  /** The least pending coordinate does not depend on the order of the list. */
  lemma NextPlanPermutation(state: State, a: seq<Pending>, b: seq<Pending>)
    requires multiset(a) == multiset(b)
    ensures NextPlan(state, a) == NextPlan(state, b)
  {
    assert |multiset(a)| == |multiset(b)|;
    if a != [] {
      var ca, cb := Earliest(a), Earliest(b);
      var pa :| pa in a && pa.eligibility == ca;
      var pb :| pb in b && pb.eligibility == cb;
      assert pa in multiset(b) && pb in multiset(a);
      assert pa in b && pb in a;
      assert Compare(ca, cb) == 0;
    }
  }
}

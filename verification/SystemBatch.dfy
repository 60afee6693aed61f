/** One WORK commit of simultaneous schedule and trigger units. The units stand in fence
    order; their events are published in the order of their identities. */
module SystemBatch {
  import opened Bytes
  import opened Domain
  import opened Sorting
  import Scheduler
  import opened MixedBatch

  /** A settled unit, and its event once that has been made. */
  datatype Prepared = Prepared(system: System, event: Option<Event>)

  /** A position in fence order, with the identity it is sorted by. */
  datatype Position = Position(index: nat, id: Bytes)

  const NO_RESPONSES: Responses := map[]

  predicate IdLess(a: Position, b: Position) {
    Less(a.id, b.id)
  }

  predicate OnlySystems(units: seq<Unit>) {
    forall u :: u in units ==> u.kind == 2 || u.kind == 3
  }

  /** Of one unit its kind is looked at first, and then what a mixed batch looks at. */
  function UnitRefusal(w: Work, prior: seq<Unit>, u: Unit): Option<Error> {
    if u.kind != 2 && u.kind != 3 then Some(Unsupported) else UnitFailure(w, NO_RESPONSES, prior, u)
  }

  /** The first unit that cannot be settled decides the error. */
  function UnitsRefusal(w: Work, units: seq<Unit>): Option<Error> {
    if units == [] then None
    else
      match UnitsRefusal(w, units[..|units| - 1])
      case Some(e) => Some(e)
      case None => UnitRefusal(w, units[..|units| - 1], units[|units| - 1])
  }

  ghost function SystemFailure(w: Work): Option<Error> {
    if !FreshCoordinate(w) then Some(StaleCoordinate)
    else if |w.units| < 2 then Some(TooFewUnits)
    else if |w.units| > MAX_U64 - w.state.nextLogicalSequence then Some(SequenceOverflow)
    else UnitsRefusal(w, w.units)
  }

  /** What is accepted is what a mixed batch accepts of schedule and trigger units. */
  lemma {:induction false} NoRefusal(w: Work, units: seq<Unit>)
    ensures UnitsRefusal(w, units) == None <==> OnlySystems(units) && UnitsFailure(w, NO_RESPONSES, units) == None
  {
    hide UnitFailure;
    if units != [] {
      var init, last := units[..|units| - 1], units[|units| - 1];
      assert units == init + [last];
      NoRefusal(w, init);
    }
  }

  lemma RefusalOneMore(w: Work, init: seq<Unit>, u: Unit)
    requires UnitsRefusal(w, init) == None
    ensures UnitsRefusal(w, init + [u]) == UnitRefusal(w, init, u)
  {
    assert (init + [u])[..|init|] == init;
  }

  lemma {:induction false} RefusedEarly(w: Work, units: seq<Unit>, n: nat)
    requires n <= |units| && UnitsRefusal(w, units[..n]).Some?
    ensures UnitsRefusal(w, units) == UnitsRefusal(w, units[..n])
  {
    if n < |units| {
      assert units[..|units| - 1][..n] == units[..n];
      RefusedEarly(w, units[..|units| - 1], n);
    } else {
      assert units[..n] == units;
    }
  }

  lemma IdsAreOrdered()
    ensures StrictOrder(IdLess)
    ensures forall a, b :: Less(a, b) || a == b || Less(b, a)
  {
    forall a ensures !Less(a, a) {
      LessIrreflexive(a);
    }
    forall a, b, c | Less(a, b) && Less(b, c) ensures Less(a, c) {
      LessTransitive(a, b, c);
    }
    forall a, b ensures Less(a, b) || a == b || Less(b, a) {
      LessTotal(a, b);
    }
  }

  lemma {:induction false} SystemsInFenceOrder(w: Work, units: seq<Unit>)
    requires UnitsFailure(w, NO_RESPONSES, units) == None && OnlySystems(units)
    ensures |Systems(w, units)| == |units|
    ensures forall i :: 0 <= i < |units| ==> Systems(w, units)[i].id == units[i].id && Systems(w, units)[i].kind == units[i].kind
  {
    if units != [] {
      SystemsInFenceOrder(w, units[..|units| - 1]);
      assert units[|units| - 1] in units;
    }
  }

  lemma {:induction false} NoParts(units: seq<Unit>, round: Bytes)
    ensures Parts(NO_RESPONSES, units, round) == []
  {
    if units != [] {
      NoParts(units[..|units| - 1], round);
    }
  }

  /** The permutation that puts the identities in order. */
  method SortPositions(systems: seq<System>) returns (order: seq<Position>)
    requires DistinctBy(SystemId, systems)
    ensures |order| == |systems|
    ensures forall k :: 0 <= k < |order| ==> order[k].index < |systems| && order[k].id == systems[order[k].index].id
    ensures forall i :: 0 <= i < |systems| ==> Position(i, systems[i].id) in order
    ensures forall j, k :: 0 <= j < k < |order| ==> Less(order[j].id, order[k].id)
  {
    var positions := seq(|systems|, i requires 0 <= i < |systems| => Position(i, systems[i].id));
    IdsAreOrdered();
    order := SortSlice(IdLess, positions);
    OrderIsPermutation(systems, positions, order);
  }

  function IdOf(p: Position): Bytes {
    p.id
  }

  lemma OrderIsPermutation(systems: seq<System>, positions: seq<Position>, order: seq<Position>)
    requires DistinctBy(SystemId, systems) && |positions| == |systems|
    requires forall i :: 0 <= i < |systems| ==> positions[i] == Position(i, systems[i].id)
    requires multiset(order) == multiset(positions) && Sorted(IdLess, order)
    ensures |order| == |systems|
    ensures forall k :: 0 <= k < |order| ==> order[k].index < |systems| && order[k].id == systems[order[k].index].id
    ensures forall i :: 0 <= i < |systems| ==> Position(i, systems[i].id) in order
    ensures forall j, k :: 0 <= j < k < |order| ==> Less(order[j].id, order[k].id)
  {
    hide Less;
    SameMembers(order, positions);
    forall k | 0 <= k < |order| ensures order[k].index < |systems| && order[k].id == systems[order[k].index].id {
      assert order[k] in positions;
    }
    forall i | 0 <= i < |systems| ensures Position(i, systems[i].id) in order {
      assert positions[i] in positions;
    }
    forall i, j | 0 <= i < j < |positions| ensures IdOf(positions[i]) != IdOf(positions[j]) {
      assert SystemId(systems[i]) != SystemId(systems[j]);
    }
    DistinctIgnoresOrder(IdOf, positions, order);
    IdsAreOrdered();
    forall j, k | 0 <= j < k < |order| ensures Less(order[j].id, order[k].id) {
      assert IdOf(order[j]) != IdOf(order[k]);
      assert !IdLess(order[k], order[j]);
    }
  }

  function EventOf(s: System, sequence: nat): Event {
    Event(Plan(s.id, Lifecycle(s)), sequence)
  }

  /** Makes the events in identity order, and writes each into its unit's place in fence order. */
  method MakeEvents(prepared: array<Prepared>, order: seq<Position>, base: U64) returns (events: seq<Event>)
    requires |order| == prepared.Length
    requires forall k :: 0 <= k < |order| ==> order[k].index < prepared.Length
    requires forall k :: 0 <= k < |order| ==> order[k].id == prepared[order[k].index].system.id
    requires forall j, k :: 0 <= j < k < |order| ==> order[j].index != order[k].index
    modifies prepared
    ensures forall i :: 0 <= i < prepared.Length ==> prepared[i].system == old(prepared[i].system)
    ensures |events| == |order|
    ensures forall k :: 0 <= k < |order| ==>
              && events[k] == EventOf(prepared[order[k].index].system, base + k)
              && prepared[order[k].index].event == Some(events[k])
  {
    events := [];
    for k := 0 to |order|
      invariant forall i :: 0 <= i < prepared.Length ==> prepared[i].system == old(prepared[i].system)
      invariant |events| == k
      invariant forall j :: 0 <= j < k ==>
                  && events[j] == EventOf(prepared[order[j].index].system, base + j)
                  && prepared[order[j].index].event == Some(events[j])
    {
      var index := order[k].index;
      var event := EventOf(prepared[index].system, base + k);
      prepared[index] := prepared[index].(event := Some(event));
      events := events + [event];
    }
  }

  lemma NoSuccessorsYet()
    ensures Successors([]) == []
  {
  }

  lemma SuccessorsOneMore(decisions: seq<Decision>, d: Decision)
    ensures Successors(decisions + [d]) == Successors(decisions) + if d.successor.Some? then [d.successor.value] else []
  {
    assert (decisions + [d])[..|decisions|] == decisions;
  }

  /** Reads the units back in fence order: one decision each, and a successor for each deferral. */
  method DecideInFenceOrder(units: seq<Unit>, prepared: array<Prepared>, ghost events: seq<Event>)
    returns (decisions: seq<Decision>, successors: seq<Successor>)
    requires prepared.Length == |units| && OnlySystems(units)
    requires forall i :: 0 <= i < |units| ==>
               && prepared[i].system.id == units[i].id && prepared[i].event.Some? && prepared[i].event.value in events
               && prepared[i].event.value.plan == Plan(units[i].id, Lifecycle(prepared[i].system))
    ensures |decisions| == |units|
    ensures forall i :: 0 <= i < |units| ==> IsDecision(units[i], events, decisions[i])
    ensures successors == Successors(decisions)
  {
    hide Successors, DispositionOf, SuccessorOf;
    decisions, successors := [], [];
    NoSuccessorsYet();
    for i := 0 to |units|
      invariant |decisions| == i
      invariant forall j :: 0 <= j < i ==> IsDecision(units[j], events, decisions[j])
      invariant successors == Successors(decisions)
    {
      var u, p := units[i], prepared[i];
      assert u in units;
      var event := p.event.value;
      var d := Decision(u.id, u.digest, u.kind, DispositionOf(p.system), Some(event), SuccessorOf(event));
      SuccessorsOneMore(decisions, d);
      decisions := decisions + [d];
      if d.successor.Some? {
        successors := successors + [d.successor.value];
      }
    }
  }

  /** The events made in identity order are exactly those the fence is due. */
  lemma EventsAreDue(w: Work, systems: seq<System>, order: seq<Position>, events: seq<Event>)
    requires systems == Systems(w, w.units)
    requires |events| == |order| == |systems|
    requires forall k :: 0 <= k < |order| ==> order[k].index < |systems| && order[k].id == systems[order[k].index].id
    requires forall i :: 0 <= i < |systems| ==> Position(i, systems[i].id) in order
    requires forall j, k :: 0 <= j < k < |order| ==> Less(order[j].id, order[k].id)
    requires forall k :: 0 <= k < |order| ==>
               events[k] == EventOf(systems[order[k].index], w.state.nextLogicalSequence + k)
    ensures IsEventList(w, NO_RESPONSES, events)
  {
    hide Less, Systems, Parts;
    forall i, j | 0 <= i < j < |events| ensures OriginLess(Plans(events)[i], Plans(events)[j]) {
      assert Less(order[i].id, order[j].id);
    }
    forall p ensures p in Plans(events) <==> IsPlan(w, NO_RESPONSES, p) {
      NoParts(w.units, p.origin);
      if p in Plans(events) {
        var k :| 0 <= k < |events| && Plans(events)[k] == p;
        assert systems[order[k].index] in systems;
      }
      if IsSystemPlan(w, w.units, p) {
        var i :| 0 <= i < |systems| && systems[i] == p.body.system;
        assert Position(i, systems[i].id) in order;
        var k :| 0 <= k < |order| && order[k] == Position(i, systems[i].id);
        assert Plans(events)[k] == p;
      }
    }
  }

  lemma IndexesDiffer(systems: seq<System>, order: seq<Position>)
    requires forall k :: 0 <= k < |order| ==> order[k].index < |systems| && order[k].id == systems[order[k].index].id
    requires forall j, k :: 0 <= j < k < |order| ==> Less(order[j].id, order[k].id)
    ensures forall j, k :: 0 <= j < k < |order| ==> order[j].index != order[k].index
  {
    forall j, k | 0 <= j < k < |order| ensures order[j].index != order[k].index {
      LessIrreflexive(order[j].id);
    }
  }

  /** Checks and settles the units in fence order. */
  method Gather(w: Work) returns (failure: Option<Error>, systems: seq<System>)
    ensures failure == UnitsRefusal(w, w.units)
    ensures failure == None ==> systems == Systems(w, w.units)
  {
    hide UnitsRefusal, UnitFailure, Systems, SystemOf, HasId;
    systems := [];
    NothingGathered(w);
    var members := {};
    assert w.units[..0] == [];
    for i := 0 to |w.units|
      invariant UnitsRefusal(w, w.units[..i]) == None
      invariant systems == Systems(w, w.units[..i])
      invariant forall id :: id in members <==> HasId(w.units[..i], id)
    {
      var u := w.units[i];
      ghost var init := w.units[..i];
      assert w.units[..i + 1] == init + [u];
      RefusalOneMore(w, init, u);
      failure := Some(Unsupported);
      if u.kind == 2 || u.kind == 3 {
        failure := CheckUnit(w, NO_RESPONSES, members, u, init);
      }
      if failure.Some? {
        RefusedEarly(w, w.units, i + 1);
        return;
      }
      SystemsOneMore(w, init, u);
      MembersOneMore(init, u);
      members := members + {u.id};
      systems := systems + [SystemOf(u, w.sources[u.id], w.instant).value];
    }
    assert w.units[..|w.units|] == w.units;
    failure := None;
  }

  lemma NothingGathered(w: Work)
    ensures UnitsRefusal(w, []) == None && Systems(w, []) == []
    ensures forall id :: !HasId([], id)
  {
  }

  /** Settles a fence of schedule and trigger units in one batch, or says why it cannot. The
      batch is of the same kind as a mixed one, so it conserves the fence and is unique. */
  method CommitSystems(w: Work) returns (r: Result<Batch, Error>)
    ensures r.Err? <==> SystemFailure(w).Some?
    ensures r.Err? ==> Some(r.error) == SystemFailure(w)
    ensures r.Ok? ==> IsBatch(w, NO_RESPONSES, r.value)
  {
    hide UnitsFailure, UnitsRefusal, Less, Parts;
    if !FreshCoordinate(w) {
      return Err(StaleCoordinate);
    }
    if |w.units| < 2 {
      return Err(TooFewUnits);
    }
    if |w.units| > MAX_U64 - w.state.nextLogicalSequence {
      return Err(SequenceOverflow);
    }
    var failure, systems := Gather(w);
    if failure.Some? {
      return Err(failure.value);
    }
    NoRefusal(w, w.units);
    var b := Publish(w, systems);
    return Ok(b);
  }

  method Publish(w: Work, systems: seq<System>) returns (b: Batch)
    requires FreshCoordinate(w) && |w.units| <= MAX_U64 - w.state.nextLogicalSequence && OnlySystems(w.units)
    requires UnitsFailure(w, NO_RESPONSES, w.units) == None && systems == Systems(w, w.units)
    ensures IsBatch(w, NO_RESPONSES, b)
  {
    hide UnitsFailure, Less, Systems, IsEventList, OnlySystems;
    SystemsAreDistinct(w, NO_RESPONSES, w.units);
    SystemsInFenceOrder(w, w.units);
    var prepared := new Prepared[|systems|](i requires 0 <= i < |systems| => Prepared(systems[i], None));
    var order := SortPositions(systems);
    IndexesDiffer(systems, order);
    var events := MakeEvents(prepared, order, w.state.nextLogicalSequence);
    EventsAreDue(w, systems, order, events);
    EveryPlaceIsFilled(systems, order, events, prepared[..]);
    var decisions, successors := DecideInFenceOrder(w.units, prepared, events);
    b := Batch(Scheduler.WorkClock(w.state, w.ordinal, |events|), decisions, events, successors);
  }

  lemma EveryPlaceIsFilled(systems: seq<System>, order: seq<Position>, events: seq<Event>, prepared: seq<Prepared>)
    requires |prepared| == |systems| == |order| == |events|
    requires forall i :: 0 <= i < |systems| ==> prepared[i].system == systems[i]
    requires forall i :: 0 <= i < |systems| ==> Position(i, systems[i].id) in order
    requires forall k :: 0 <= k < |order| ==> order[k].index < |systems|
    requires forall k :: 0 <= k < |order| ==> prepared[order[k].index].event == Some(events[k])
    requires forall k :: 0 <= k < |order| ==> events[k].plan == Plan(systems[order[k].index].id, Lifecycle(systems[order[k].index]))
    ensures forall i :: 0 <= i < |systems| ==>
              && prepared[i].event.Some? && prepared[i].event.value in events
              && prepared[i].event.value.plan == Plan(systems[i].id, Lifecycle(systems[i]))
  {
    forall i | 0 <= i < |systems|
      ensures prepared[i].event.Some? && prepared[i].event.value in events
      ensures prepared[i].event.value.plan == Plan(systems[i].id, Lifecycle(systems[i]))
    {
      var k :| 0 <= k < |order| && order[k] == Position(i, systems[i].id);
    }
  }
}

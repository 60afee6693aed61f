/** A mixed batch conserves the fence, and there is only one. */
module MixedBatchProperties {
  import opened Bytes
  import opened Domain
  import opened Sorting
  import Settlement
  import opened MixedBatch

  // ----- determinism -----

  /** Map iteration and the choice of sorting algorithm leave no room: a fence has one batch. */
  lemma BatchIsUnique(w: Work, byId: Responses, a: Batch, b: Batch)
    requires IsBatch(w, byId, a) && IsBatch(w, byId, b)
    ensures a == b
  {
    hide IsPlan;
    OrdersByKey();
    StrictlySortedUnique(OriginLess, Plans(a.events), Plans(b.events));
    assert |a.events| == |Plans(a.events)|;
    forall i | 0 <= i < |a.events| ensures a.events[i] == b.events[i] {
      assert Plans(a.events)[i] == Plans(b.events)[i];
    }
    assert a.events == b.events;
    forall i | 0 <= i < |w.units| ensures a.decisions[i] == b.decisions[i] {
      OneDecision(w, byId, a.events, w.units[i], a.decisions[i], b.decisions[i]);
    }
    assert a.decisions == b.decisions;
  }

  lemma EventsAreDistinct(w: Work, byId: Responses, events: seq<Event>, e: Event, f: Event)
    requires IsEventList(w, byId, events) && e in events && f in events && e.plan.origin == f.plan.origin
    ensures e == f
  {
    forall i, j | 0 <= i < j < |events| ensures events[i].plan.origin != events[j].plan.origin {
      assert OriginLess(Plans(events)[i], Plans(events)[j]);
      LessIrreflexive(events[i].plan.origin);
    }
    var i :| 0 <= i < |events| && events[i] == e;
    var j :| 0 <= j < |events| && events[j] == f;
  }

  lemma OneDecision(w: Work, byId: Responses, events: seq<Event>, u: Unit, d: Decision, d': Decision)
    requires IsEventList(w, byId, events) && IsDecision(u, events, d) && IsDecision(u, events, d')
    ensures d == d'
  {
    hide IsEventList;
    if u.kind != 0 {
      EventsAreDistinct(w, byId, events, d.event.value, d'.event.value);
    }
  }

  // ----- conservation -----

  ghost predicate Names(e: Event, id: Bytes) {
    match e.plan.body
    case Round(parts) => exists p :: p in parts && p.id == id
    case Lifecycle(s) => s.id == id
  }

  /** The event consumes the unit: it names it with its digest, as a slot of its round or by itself. */
  ghost predicate Consumes(byId: Responses, e: Event, u: Unit) {
    match e.plan.body
    case Round(parts) =>
      u.kind == 0 && u.id in byId && e.plan.origin == byId[u.id].round && Part(byId[u.id].slot, u.id, u.digest) in parts
    case Lifecycle(s) =>
      u.kind != 0 && e.plan.origin == u.id && s.id == u.id && s.digest == u.digest && s.kind == u.kind
  }

  lemma {:induction false} PartsComeFromUnits(byId: Responses, units: seq<Unit>, round: Bytes, p: Part)
    requires p in Parts(byId, units, round)
    ensures exists u :: u in units && u.kind == 0 && u.id in byId && byId[u.id].round == round
                        && p == Part(byId[u.id].slot, u.id, u.digest)
  {
    var init, last := units[..|units| - 1], units[|units| - 1];
    assert units == init + [last];
    if p in Parts(byId, init, round) {
      PartsComeFromUnits(byId, init, round, p);
      var u :| u in init && u.kind == 0 && u.id in byId && byId[u.id].round == round && p == Part(byId[u.id].slot, u.id, u.digest);
      assert u in units;
    } else {
      assert last in units;
    }
  }

  lemma SortedParts(byId: Responses, units: seq<Unit>, p: Plan)
    requires IsRoundPlan(byId, units, p)
    ensures p.body.Round?
    ensures forall x :: x in p.body.parts <==> x in Parts(byId, units, p.origin)
  {
    hide Parts;
    SameMembers(Sort(SlotLess, Parts(byId, units, p.origin)), Parts(byId, units, p.origin));
  }

  lemma PlanIn(w: Work, byId: Responses, events: seq<Event>, p: Plan)
    requires IsEventList(w, byId, events) && IsPlan(w, byId, p)
    ensures exists e :: e in events && e.plan == p
  {
    hide IsPlan;
    var i :| 0 <= i < |events| && Plans(events)[i] == p;
    assert events[i] in events && events[i].plan == p;
  }

  /** No admitted unit is left out. */
  lemma EveryUnitIsConsumed(w: Work, byId: Responses, events: seq<Event>, u: Unit)
    requires UnitsFailure(w, byId, w.units) == None && IsEventList(w, byId, events) && u in w.units
    ensures exists e :: e in events && Consumes(byId, e, u)
  {
    hide UnitsFailure, Parts, Systems, IsEventList, Sort;
    UnitHasSystem(w, byId, w.units, u);
    if u.kind == 0 {
      var round := byId[u.id].round;
      var p := Plan(round, Round(Sort(SlotLess, Parts(byId, w.units, round))));
      assert IsRoundPlan(byId, w.units, p);
      SortedParts(byId, w.units, p);
      PlanIn(w, byId, events, p);
      var e :| e in events && e.plan == p;
      assert Consumes(byId, e, u);
    } else {
      SystemOfUnit(w, byId, w.units, u);
      var s := SystemOf(u, w.sources[u.id], w.instant).value;
      PlanIn(w, byId, events, Plan(u.id, Lifecycle(s)));
      var e :| e in events && e.plan == Plan(u.id, Lifecycle(s));
      assert Consumes(byId, e, u);
    }
  }

  lemma {:induction false} SystemOfUnit(w: Work, byId: Responses, units: seq<Unit>, u: Unit)
    requires UnitsFailure(w, byId, units) == None && u in units && u.kind != 0
    ensures u.kind in {2, 3} && u.id in w.sources && SystemOf(u, w.sources[u.id], w.instant).Ok?
    ensures SystemOf(u, w.sources[u.id], w.instant).value in Systems(w, units)
  {
    var init, last := units[..|units| - 1], units[|units| - 1];
    assert units == init + [last];
    if u in init {
      SystemOfUnit(w, byId, init, u);
    }
  }

  /** Nothing is consumed that was not admitted. */
  lemma OnlyUnitsAreConsumed(w: Work, byId: Responses, events: seq<Event>, e: Event, id: Bytes)
    requires IsEventList(w, byId, events) && e in events && Names(e, id)
    ensures exists u :: u in w.units && u.id == id && Consumes(byId, e, u)
  {
    hide Parts, Systems, Sort;
    var i :| 0 <= i < |events| && events[i] == e;
    assert Plans(events)[i] == e.plan && e.plan in Plans(events);
    if IsRoundPlan(byId, w.units, e.plan) {
      SortedParts(byId, w.units, e.plan);
      var p :| p in e.plan.body.parts && p.id == id;
      PartsComeFromUnits(byId, w.units, e.plan.origin, p);
      var u :| u in w.units && u.kind == 0 && u.id in byId && byId[u.id].round == e.plan.origin
               && p == Part(byId[u.id].slot, u.id, u.digest);
      assert Consumes(byId, e, u);
    } else {
      SystemUnitExists(w, w.units, e.plan.body.system);
      var u :| u in w.units && u.kind == e.plan.body.system.kind && u.id == id && u.digest == e.plan.body.system.digest
               && u.kind in {2, 3};
      assert Consumes(byId, e, u);
    }
  }

  lemma {:induction false} UnitsAreDistinct(w: Work, byId: Responses, units: seq<Unit>, u: Unit, v: Unit)
    requires UnitsFailure(w, byId, units) == None && u in units && v in units && u.id == v.id
    ensures u == v
  {
    var init, last := units[..|units| - 1], units[|units| - 1];
    assert units == init + [last];
    assert !HasId(init, last.id);
    if u in init && v in init {
      UnitsAreDistinct(w, byId, init, u, v);
    }
  }

  /** No identity is named by two events. */
  lemma ConsumedOnce(w: Work, byId: Responses, events: seq<Event>, e: Event, f: Event, id: Bytes)
    requires UnitsFailure(w, byId, w.units) == None && IsEventList(w, byId, events)
    requires e in events && f in events && Names(e, id) && Names(f, id)
    ensures e == f
  {
    hide UnitsFailure, IsEventList, Names;
    OnlyUnitsAreConsumed(w, byId, events, e, id);
    OnlyUnitsAreConsumed(w, byId, events, f, id);
    var u :| u in w.units && u.id == id && Consumes(byId, e, u);
    var v :| v in w.units && v.id == id && Consumes(byId, f, v);
    UnitsAreDistinct(w, byId, w.units, u, v);
    EventsAreDistinct(w, byId, events, e, f);
  }

  /** The fence is conserved: every admitted unit is named by exactly one event, and every
      identity an event names belongs to an admitted unit. */
  lemma FenceIsConserved(w: Work, byId: Responses, b: Batch)
    requires UnitsFailure(w, byId, w.units) == None && IsBatch(w, byId, b)
    ensures forall u :: u in w.units ==> exists e :: e in b.events && Names(e, u.id)
    ensures forall e, f, id :: e in b.events && f in b.events && Names(e, id) && Names(f, id) ==> e == f
    ensures forall e, id :: e in b.events && Names(e, id) ==> HasId(w.units, id)
  {
    hide UnitsFailure, IsEventList, Names, Consumes, Parts, Systems;
    forall u | u in w.units ensures exists e :: e in b.events && Names(e, u.id) {
      EveryUnitIsConsumed(w, byId, b.events, u);
      var e :| e in b.events && Consumes(byId, e, u);
      ConsumingNames(byId, e, u);
    }
    forall e, f, id | e in b.events && f in b.events && Names(e, id) && Names(f, id) ensures e == f {
      ConsumedOnce(w, byId, b.events, e, f, id);
    }
    forall e, id | e in b.events && Names(e, id) ensures HasId(w.units, id) {
      OnlyUnitsAreConsumed(w, byId, b.events, e, id);
    }
  }

  lemma ConsumingNames(byId: Responses, e: Event, u: Unit)
    requires Consumes(byId, e, u)
    ensures Names(e, u.id)
  {
  }

  // ----- decisions and successors -----

  /** What the stored unit says should happen. */
  ghost function Expected(w: Work, u: Unit): Disposition
    requires u.kind == 2 ==> u.id in w.sources
  {
    if u.kind == 0 then NoProposal
    else if u.kind != 2 then Consumed
    else
      match Settlement.OccurrenceOutcome(w.sources[u.id].due, w.sources[u.id].recurrence, w.instant)
      case Ok(Defer(_, _)) => Deferred
      case _ => Rejected
  }

  lemma TheSystemOfAnEvent(w: Work, byId: Responses, events: seq<Event>, u: Unit, e: Event)
    requires UnitsFailure(w, byId, w.units) == None && IsEventList(w, byId, events)
    requires u in w.units && u.kind != 0 && e in events && e.plan.body.Lifecycle? && e.plan.origin == u.id
    ensures u.id in w.sources && SystemOf(u, w.sources[u.id], w.instant) == Ok(e.plan.body.system)
  {
    hide UnitsFailure, Systems, IsEventList;
    SystemOfUnit(w, byId, w.units, u);
    var s := SystemOf(u, w.sources[u.id], w.instant).value;
    PlanIn(w, byId, events, Plan(u.id, Lifecycle(s)));
    var f :| f in events && f.plan == Plan(u.id, Lifecycle(s));
    EventsAreDistinct(w, byId, events, e, f);
  }

  /** Each decision says what the stored unit calls for, and has a successor, due after this
      instant, exactly when it defers. */
  lemma DecisionsAreRight(w: Work, byId: Responses, b: Batch, i: nat)
    requires UnitsFailure(w, byId, w.units) == None && IsBatch(w, byId, b) && i < |w.units|
    ensures w.units[i].kind in {0, 2, 3} && (w.units[i].kind != 0 ==> w.units[i].id in w.sources)
    ensures b.decisions[i].id == w.units[i].id && b.decisions[i].disposition == Expected(w, w.units[i])
    ensures b.decisions[i].successor.Some? <==> b.decisions[i].disposition == Deferred
    ensures b.decisions[i].successor.Some? ==>
              && b.decisions[i].event == Some(b.decisions[i].successor.value.origin)
              && b.decisions[i].successor.value.due > w.instant
    ensures b.decisions[i].event.Some? ==> Consumes(byId, b.decisions[i].event.value, w.units[i])
  {
    hide UnitsFailure, IsEventList, Parts, Systems;
    var u, d := w.units[i], b.decisions[i];
    assert u in w.units && IsDecision(u, b.events, d);
    UnitHasSystem(w, byId, w.units, u);
    if u.kind != 0 {
      TheSystemOfAnEvent(w, byId, b.events, u, d.event.value);
    }
  }

  function CountDeferred(decisions: seq<Decision>): nat {
    if decisions == [] then 0
    else
      CountDeferred(decisions[..|decisions| - 1]) + if decisions[|decisions| - 1].disposition == Deferred then 1 else 0
  }

  lemma {:induction false} SuccessorsMatch(decisions: seq<Decision>)
    requires forall d :: d in decisions ==> (d.successor.Some? <==> d.disposition == Deferred)
    ensures |Successors(decisions)| == CountDeferred(decisions)
    ensures forall s :: s in Successors(decisions) <==> exists d :: d in decisions && d.successor == Some(s)
  {
    if decisions != [] {
      var init, last := decisions[..|decisions| - 1], decisions[|decisions| - 1];
      assert decisions == init + [last];
      SuccessorsMatch(init);
      assert last in decisions;
    }
  }

  /** Successors are exactly those of the deferred units, one each, all in the future. */
  lemma SuccessorsAreTheDeferred(w: Work, byId: Responses, b: Batch)
    requires UnitsFailure(w, byId, w.units) == None && IsBatch(w, byId, b)
    ensures |b.successors| == CountDeferred(b.decisions)
    ensures forall s :: s in b.successors ==> s.due > w.instant && s.origin in b.events
    ensures forall s :: s in b.successors ==> exists i :: 0 <= i < |b.decisions| && b.decisions[i].successor == Some(s)
    ensures forall i :: 0 <= i < |b.decisions| && b.decisions[i].disposition == Deferred ==>
              b.decisions[i].successor.Some? && b.decisions[i].successor.value in b.successors
  {
    hide UnitsFailure, IsEventList, Successors, CountDeferred, Consumes, Expected;
    forall i | 0 <= i < |b.decisions|
      ensures b.decisions[i].successor.Some? <==> b.decisions[i].disposition == Deferred
      ensures b.decisions[i].successor.Some? ==>
                b.decisions[i].successor.value.due > w.instant && b.decisions[i].successor.value.origin in b.events
    {
      DecisionsAreRight(w, byId, b, i);
      assert IsDecision(w.units[i], b.events, b.decisions[i]);
    }
    SuccessorsMatch(b.decisions);
    forall i | 0 <= i < |b.decisions| && b.decisions[i].disposition == Deferred ensures b.decisions[i].successor.value in b.successors {
      assert b.decisions[i] in b.decisions;
    }
  }
}

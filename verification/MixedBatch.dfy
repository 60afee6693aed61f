/** One WORK commit that settles every unit of a frozen fence: slot responses by round, and
    schedule and trigger units by themselves. */
module MixedBatch {
  import opened Bytes
  import opened Domain
  import opened Sorting
  import Clock
  import Fence
  import Scheduler
  import Settlement

  type Unit = Fence.Unit

  datatype Response = Response(id: Bytes, kind: nat, digest: Bytes, round: Bytes, slot: Bytes)

  /** A stored schedule or trigger unit; `registered` says that its handler or its definition is. */
  datatype Source = Source(kind: nat, digest: Bytes, owner: Bytes, registered: bool,
                           due: I64, recurrence: Settlement.Recurrence)

  datatype Work = Work(state: Clock.State, instant: I64, ordinal: U64, baseRevision: U64, units: seq<Unit>,
                       responses: set<Response>, sources: map<Bytes, Source>)

  /** One slot of a round, with the response that filled it. */
  datatype Part = Part(slot: Bytes, id: Bytes, digest: Bytes)

  datatype System = System(id: Bytes, digest: Bytes, kind: nat, outcome: Settlement.Outcome)

  /** What an event is about: the consumed slots of a round, or one system unit. */
  datatype Body = Round(parts: seq<Part>) | Lifecycle(system: System)

  datatype Plan = Plan(origin: Bytes, body: Body)

  /** Identities and digests of an event are functions of the cycle and these fields. */
  datatype Event = Event(plan: Plan, sequence: nat)

  datatype Successor = Successor(origin: Event, due: I64, recurrence: Settlement.Recurrence)

  datatype Disposition = NoProposal | Consumed | Rejected | Deferred

  datatype Decision = Decision(id: Bytes, digest: Bytes, kind: nat, disposition: Disposition,
                               event: Option<Event>, successor: Option<Successor>)

  datatype Batch = Batch(clock: Clock.State, decisions: seq<Decision>, events: seq<Event>, successors: seq<Successor>)

  datatype Error =
    | StaleCoordinate
    | TooFewUnits
    | DuplicateResponse
    | DuplicateSource
    | NotANoProposal
    | SystemUnitMismatch
    | HandlerRefused
    | Unsupported
    | BothClassesRequired
    | DuplicateSlot
    | SequenceOverflow
    | OriginCollision

  // ----- which units settle -----

  predicate FreshCoordinate(w: Work) {
    && w.state.instant == w.instant
    && w.state.revision == w.baseRevision
    && w.ordinal <= MAX_I64
    && w.state.lastOrdinal < w.ordinal
    && w.state.revision != MAX_U64
  }

  ghost predicate UniqueResponses(responses: set<Response>) {
    forall r, s :: r in responses && s in responses && r.id == s.id ==> r == s
  }

  type Responses = map<Bytes, Response>

  function SystemOf(u: Unit, s: Source, instant: I64): Result<System, Error> {
    if u.kind == 3 then
      if s.registered then Ok(System(u.id, u.digest, 3, Settlement.Reject)) else Err(HandlerRefused)
    else if !s.registered then Err(HandlerRefused)
    else
      match Settlement.OccurrenceOutcome(s.due, s.recurrence, instant)
      case Err(_) => Err(HandlerRefused)
      case Ok(outcome) => Ok(System(u.id, u.digest, 2, outcome))
  }

  predicate HasId(units: seq<Unit>, id: Bytes) {
    exists v :: v in units && v.id == id
  }

  function UnitFailure(w: Work, byId: Responses, prior: seq<Unit>, u: Unit): Option<Error> {
    if HasId(prior, u.id) then Some(DuplicateSource)
    else if u.kind == 0 then
      if u.id !in byId || byId[u.id].kind != 1 || byId[u.id].digest != u.digest then Some(NotANoProposal) else None
    else if u.kind == 2 || u.kind == 3 then
      if u.id !in w.sources || w.sources[u.id].kind != u.kind || w.sources[u.id].digest != u.digest
         || w.sources[u.id].owner != u.source
      then Some(SystemUnitMismatch)
      else
        match SystemOf(u, w.sources[u.id], w.instant)
        case Err(e) => Some(e)
        case Ok(_) => None
    else Some(Unsupported)
  }

  /** The first unit that cannot be settled decides the error. */
  function UnitsFailure(w: Work, byId: Responses, units: seq<Unit>): Option<Error> {
    if units == [] then None
    else
      match UnitsFailure(w, byId, units[..|units| - 1])
      case Some(e) => Some(e)
      case None => UnitFailure(w, byId, units[..|units| - 1], units[|units| - 1])
  }

  /** The filled slots of a round, in fence order. */
  function Parts(byId: Responses, units: seq<Unit>, round: Bytes): seq<Part> {
    if units == [] then []
    else
      var u := units[|units| - 1];
      Parts(byId, units[..|units| - 1], round)
      + if u.kind == 0 && u.id in byId && byId[u.id].round == round then [Part(byId[u.id].slot, u.id, u.digest)] else []
  }

  /** The settled schedule and trigger units, in fence order. */
  function Systems(w: Work, units: seq<Unit>): seq<System> {
    if units == [] then []
    else
      var u := units[|units| - 1];
      Systems(w, units[..|units| - 1])
      + if (u.kind == 2 || u.kind == 3) && u.id in w.sources && SystemOf(u, w.sources[u.id], w.instant).Ok?
        then [SystemOf(u, w.sources[u.id], w.instant).value] else []
  }

  predicate SlotLess(a: Part, b: Part) {
    Less(a.slot, b.slot)
  }

  predicate OriginLess(a: Plan, b: Plan) {
    Less(a.origin, b.origin)
  }

  function SlotOf(p: Part): Bytes {
    p.slot
  }

  function OriginOf(p: Plan): Bytes {
    p.origin
  }

  ghost predicate DistinctSlots(parts: seq<Part>) {
    DistinctBy(SlotOf, parts)
  }

  ghost predicate IsRoundPlan(byId: Responses, units: seq<Unit>, p: Plan) {
    Parts(byId, units, p.origin) != [] && p.body == Round(Sort(SlotLess, Parts(byId, units, p.origin)))
  }

  ghost predicate IsSystemPlan(w: Work, units: seq<Unit>, p: Plan) {
    p.body.Lifecycle? && p.body.system in Systems(w, units) && p.origin == p.body.system.id
  }

  /** An event is due for each round with a filled slot and for each system unit. */
  ghost predicate IsPlan(w: Work, byId: Responses, p: Plan) {
    IsRoundPlan(byId, w.units, p) || IsSystemPlan(w, w.units, p)
  }

  ghost predicate Collides(w: Work, byId: Responses) {
    exists s :: s in Systems(w, w.units) && Parts(byId, w.units, s.id) != []
  }

  // ----- what a batch is -----

  function DispositionOf(s: System): Disposition {
    if s.kind == 3 then Consumed else if s.outcome.Reject? then Rejected else Deferred
  }

  function SuccessorOf(e: Event): Option<Successor> {
    if e.plan.body.Lifecycle? && e.plan.body.system.kind == 2 && e.plan.body.system.outcome.Defer?
    then Some(Successor(e, e.plan.body.system.outcome.due, e.plan.body.system.outcome.recurrence))
    else None
  }

  ghost predicate IsDecision(u: Unit, events: seq<Event>, d: Decision) {
    && d.id == u.id && d.digest == u.digest && d.kind == u.kind
    && if u.kind == 0 then d.disposition == NoProposal && d.event == None && d.successor == None
       else
         && d.event.Some? && d.event.value in events
         && d.event.value.plan.origin == u.id
         && d.event.value.plan.body.Lifecycle?
         && d.disposition == DispositionOf(d.event.value.plan.body.system)
         && d.successor == SuccessorOf(d.event.value)
  }

  function Successors(decisions: seq<Decision>): seq<Successor> {
    if decisions == [] then []
    else
      var last := decisions[|decisions| - 1];
      Successors(decisions[..|decisions| - 1]) + if last.successor.Some? then [last.successor.value] else []
  }

  function Plans(events: seq<Event>): (r: seq<Plan>)
    ensures |r| == |events|
  {
    seq(|events|, i requires 0 <= i < |events| => events[i].plan)
  }

  /** Decisions in fence order; events in the order of their origins, with consecutive
      logical sequence numbers from the clock's next one; successors in fence order. */
  ghost predicate IsBatch(w: Work, byId: Responses, b: Batch) {
    && IsEventList(w, byId, b.events)
    && |b.decisions| == |w.units|
    && (forall i :: 0 <= i < |w.units| ==> IsDecision(w.units[i], b.events, b.decisions[i]))
    && b.successors == Successors(b.decisions)
    && Scheduler.WorkGuard(w.state, w.ordinal, |b.events|)
    && b.clock == Scheduler.WorkClock(w.state, w.ordinal, |b.events|)
  }

  ghost predicate IsEventList(w: Work, byId: Responses, events: seq<Event>) {
    && StrictlySorted(OriginLess, Plans(events))
    && (forall p :: p in Plans(events) <==> IsPlan(w, byId, p))
    && (forall i :: 0 <= i < |events| ==> events[i].sequence == w.state.nextLogicalSequence + i)
  }

  // ----- when a batch exists -----

  function Lookup(responses: set<Response>): Responses
    requires UniqueResponses(responses)
  {
    map r | r in responses :: r.id := r
  }

  ghost predicate RepeatedSlot(byId: Responses, units: seq<Unit>) {
    exists round :: Parts(byId, units, round) != [] && !DistinctSlots(Parts(byId, units, round))
  }

  ghost predicate BothClasses(units: seq<Unit>) {
    (exists u :: u in units && u.kind == 0) && exists u :: u in units && u.kind != 0
  }

  /** How many events the fence is due. */
  ghost predicate TooManyEvents(w: Work, byId: Responses) {
    |Rounds(byId, w.units)| + |Systems(w, w.units)| > MAX_U64 - w.state.nextLogicalSequence
  }

  function Rounds(byId: Responses, units: seq<Unit>): set<Bytes> {
    set u | u in units && u.kind == 0 && u.id in byId :: byId[u.id].round
  }

  /** Everything that can go wrong, in the order in which it is noticed. */
  ghost function Failure(w: Work): Option<Error> {
    if !FreshCoordinate(w) then Some(StaleCoordinate)
    else if |w.units| < 2 then Some(TooFewUnits)
    else if !UniqueResponses(w.responses) then Some(DuplicateResponse)
    else
      var byId := Lookup(w.responses);
      match UnitsFailure(w, byId, w.units)
      case Some(e) => Some(e)
      case None =>
        if !BothClasses(w.units) then Some(BothClassesRequired)
        else if RepeatedSlot(byId, w.units) then Some(DuplicateSlot)
        else if TooManyEvents(w, byId) then Some(SequenceOverflow)
        else if Collides(w, byId) then Some(OriginCollision)
        else None
  }

  // ----- building the batch -----

  /** The responses of the view, collected by identity in whatever order they come. */
  method IndexResponses(responses: set<Response>) returns (r: Option<Responses>)
    ensures r.Some? <==> UniqueResponses(responses)
    ensures r.Some? ==> r.value == Lookup(responses)
  {
    var byId: Responses, rest := map[], responses;
    while rest != {}
      invariant rest <= responses
      invariant forall x :: x in responses && x !in rest ==> x.id in byId && byId[x.id] == x
      invariant forall id :: id in byId ==> byId[id] in responses && byId[id] !in rest && byId[id].id == id
    {
      var x :| x in rest;
      rest := rest - {x};
      if x.id in byId {
        assert byId[x.id] != x && byId[x.id].id == x.id;
        return None;
      }
      byId := byId[x.id := x];
    }
    assert UniqueResponses(responses);
    assert byId == Lookup(responses);
    return Some(byId);
  }

  type Groups = map<Bytes, seq<Part>>

  /** The groups by round hold what `Parts` says, and nothing else. */
  ghost predicate GroupsAre(groups: Groups, byId: Responses, units: seq<Unit>) {
    forall round :: (round in groups <==> Parts(byId, units, round) != [])
                    && (round in groups ==> groups[round] == Parts(byId, units, round))
  }

  lemma PartsOneMore(byId: Responses, init: seq<Unit>, u: Unit, round: Bytes)
    ensures Parts(byId, init + [u], round)
         == Parts(byId, init, round)
            + if u.kind == 0 && u.id in byId && byId[u.id].round == round then [Part(byId[u.id].slot, u.id, u.digest)] else []
  {
    assert (init + [u])[..|init|] == init;
  }

  lemma GroupsOneMore(groups: Groups, byId: Responses, init: seq<Unit>, u: Unit)
    requires GroupsAre(groups, byId, init)
    ensures u.kind != 0 ==> GroupsAre(groups, byId, init + [u])
    ensures u.kind == 0 && u.id in byId ==>
              var r := byId[u.id];
              GroupsAre(groups[r.round := (if r.round in groups then groups[r.round] else []) + [Part(r.slot, u.id, u.digest)]],
                        byId, init + [u])
  {
    hide Parts;
    forall round ensures Parts(byId, init + [u], round)
         == Parts(byId, init, round)
            + if u.kind == 0 && u.id in byId && byId[u.id].round == round then [Part(byId[u.id].slot, u.id, u.digest)] else [] {
      PartsOneMore(byId, init, u, round);
    }
  }

  lemma SystemsOneMore(w: Work, init: seq<Unit>, u: Unit)
    ensures Systems(w, init + [u]) == Systems(w, init)
            + if (u.kind == 2 || u.kind == 3) && u.id in w.sources && SystemOf(u, w.sources[u.id], w.instant).Ok?
              then [SystemOf(u, w.sources[u.id], w.instant).value] else []
  {
    assert (init + [u])[..|init|] == init;
  }

  lemma FailureOneMore(w: Work, byId: Responses, init: seq<Unit>, u: Unit)
    requires UnitsFailure(w, byId, init) == None
    ensures UnitsFailure(w, byId, init + [u]) == UnitFailure(w, byId, init, u)
  {
    assert (init + [u])[..|init|] == init;
  }

  lemma {:induction false} UnitsFailEarly(w: Work, byId: Responses, units: seq<Unit>, n: nat)
    requires n <= |units| && UnitsFailure(w, byId, units[..n]).Some?
    ensures UnitsFailure(w, byId, units) == UnitsFailure(w, byId, units[..n])
  {
    if n < |units| {
      assert units[..|units| - 1][..n] == units[..n];
      UnitsFailEarly(w, byId, units[..|units| - 1], n);
    } else {
      assert units[..n] == units;
    }
  }

  lemma NothingClassified(w: Work, byId: Responses)
    ensures UnitsFailure(w, byId, []) == None
    ensures GroupsAre(map[], byId, [])
    ensures Systems(w, []) == []
    ensures forall id :: !HasId([], id)
  {
  }

  /** Checks every unit, groups the slot units by round and settles the others. */
  method Classify(w: Work, byId: Responses) returns (failure: Option<Error>, groups: Groups, systems: seq<System>)
    ensures failure == UnitsFailure(w, byId, w.units)
    ensures failure == None ==> GroupsAre(groups, byId, w.units) && systems == Systems(w, w.units)
  {
    hide UnitsFailure, Parts, Systems, GroupsAre, SystemOf, HasId;
    groups, systems := map[], [];
    NothingClassified(w, byId);
    var members := {};
    assert w.units[..0] == [];
    for i := 0 to |w.units|
      invariant UnitsFailure(w, byId, w.units[..i]) == None
      invariant GroupsAre(groups, byId, w.units[..i])
      invariant systems == Systems(w, w.units[..i])
      invariant forall id :: id in members <==> HasId(w.units[..i], id)
    {
      var u := w.units[i];
      ghost var init := w.units[..i];
      assert w.units[..i + 1] == init + [u];
      FailureOneMore(w, byId, init, u);
      failure := CheckUnit(w, byId, members, u, init);
      if failure.Some? {
        UnitsFailEarly(w, byId, w.units, i + 1);
        return;
      }
      GroupsOneMore(groups, byId, init, u);
      SystemsOneMore(w, init, u);
      MembersOneMore(init, u);
      members := members + {u.id};
      if u.kind == 0 {
        var r := byId[u.id];
        groups := groups[r.round := (if r.round in groups then groups[r.round] else []) + [Part(r.slot, u.id, u.digest)]];
      } else {
        systems := systems + [SystemOf(u, w.sources[u.id], w.instant).value];
      }
    }
    assert w.units[..|w.units|] == w.units;
    failure := None;
  }

  lemma MembersOneMore(init: seq<Unit>, u: Unit)
    ensures forall id :: HasId(init + [u], id) <==> HasId(init, id) || id == u.id
  {
    assert u in init + [u];
    assert forall v :: v in init + [u] <==> v in init || v == u;
  }

  method CheckUnit(w: Work, byId: Responses, members: set<Bytes>, u: Unit, ghost prior: seq<Unit>)
    returns (failure: Option<Error>)
    requires forall id :: id in members <==> HasId(prior, id)
    ensures failure == UnitFailure(w, byId, prior, u)
    ensures failure == None ==> u.kind in {0, 2, 3}
    ensures failure == None && u.kind == 0 ==> u.id in byId
    ensures failure == None && u.kind != 0 ==> u.id in w.sources && SystemOf(u, w.sources[u.id], w.instant).Ok?
  {
    if u.id in members {
      return Some(DuplicateSource);
    }
    match u.kind {
      case 0 =>
        if u.id !in byId || byId[u.id].kind != 1 || byId[u.id].digest != u.digest {
          return Some(NotANoProposal);
        }
      case 2 | 3 =>
        if u.id !in w.sources {
          return Some(SystemUnitMismatch);
        }
        var s := w.sources[u.id];
        if s.kind != u.kind || s.digest != u.digest || s.owner != u.source {
          return Some(SystemUnitMismatch);
        }
        var settled := SystemOf(u, s, w.instant);
        if settled.Err? {
          return Some(settled.error);
        }
      case _ =>
        return Some(Unsupported);
    }
    return None;
  }

  // ----- plans -----

  lemma OrdersByKey()
    ensures Orders(SlotLess, SlotOf)
    ensures Orders(OriginLess, OriginOf)
  {
    forall a ensures !Less(a, a) {
      LessIrreflexive(a);
    }
    forall a, b, c | Less(a, b) && Less(b, c) ensures Less(a, c) {
      LessTransitive(a, b, c);
    }
    forall a, b ensures Less(a, b) || a == b || Less(b, a) {
      LessTotal(a, b);
    }
  }

  /** Sorts the slots of one round; two equal slots end up side by side. */
  method SortParts(parts: seq<Part>) returns (r: Option<seq<Part>>)
    ensures r.Some? <==> DistinctSlots(parts)
    ensures r.Some? ==> r.value == Sort(SlotLess, parts)
  {
    hide Less, SlotLess, SlotOf;
    OrdersByKey();
    var sorted := SortSlice(SlotLess, parts);
    DistinctIgnoresOrder(SlotOf, parts, sorted);
    for i := 0 to |sorted|
      invariant forall j :: 0 < j < i ==> SlotOf(sorted[j - 1]) != SlotOf(sorted[j])
    {
      if i > 0 && SlotOf(sorted[i - 1]) == SlotOf(sorted[i]) {
        return None;
      }
    }
    NeighboursDecide(SlotLess, SlotOf, sorted);
    DistinctIgnoresOrder(SlotOf, sorted, parts);
    DistinctIsTotal(SlotLess, SlotOf, parts);
    SortedIsSort(SlotLess, parts, sorted);
    return Some(sorted);
  }

  function Itself<T>(x: T): T {
    x
  }

  lemma {:induction false} RoundsAreGroups(byId: Responses, units: seq<Unit>, round: Bytes)
    ensures round in Rounds(byId, units) <==> Parts(byId, units, round) != []
  {
    if units != [] {
      var init, last := units[..|units| - 1], units[|units| - 1];
      assert units == init + [last];
      RoundsAreGroups(byId, init, round);
      assert last in units;
    }
  }

  /** One plan for each round, taken from the map in whatever order it gives them. */
  method RoundPlans(groups: Groups, ghost byId: Responses, ghost units: seq<Unit>) returns (r: Option<seq<Plan>>)
    requires GroupsAre(groups, byId, units)
    ensures r == None <==> RepeatedSlot(byId, units)
    ensures r.Some? ==> forall p :: p in r.value <==> IsRoundPlan(byId, units, p)
    ensures r.Some? ==> DistinctBy(Itself, r.value) && |r.value| == |groups|
  {
    hide Parts, Sort, DistinctSlots;
    var plans: seq<Plan>, rest := [], groups.Keys;
    while rest != {}
      invariant rest <= groups.Keys
      invariant |plans| + |rest| == |groups.Keys|
      invariant forall p :: p in plans <==> IsRoundPlan(byId, units, p) && p.origin !in rest
      invariant DistinctBy(Itself, plans)
      invariant forall round :: round in groups.Keys - rest ==> DistinctSlots(Parts(byId, units, round))
    {
      var round :| round in rest;
      assert groups[round] == Parts(byId, units, round);
      var parts := SortParts(groups[round]);
      if parts == None {
        return None;
      }
      var plan := Plan(round, Round(parts.value));
      assert IsRoundPlan(byId, units, plan) && plan !in plans;
      plans := plans + [plan];
      rest := rest - {round};
    }
    return Some(plans);
  }

  lemma {:induction false} SystemsComeFromUnits(w: Work, units: seq<Unit>)
    ensures forall s :: s in Systems(w, units) ==> HasId(units, s.id) && s.kind in {2, 3}
  {
    if units != [] {
      var init, last := units[..|units| - 1], units[|units| - 1];
      assert units == init + [last];
      SystemsComeFromUnits(w, init);
      forall id ensures HasId(units, id) <==> HasId(init, id) || id == last.id {
        MembersOneMore(init, last);
      }
    }
  }

  lemma {:induction false} SlotsAreNoSystems(w: Work, units: seq<Unit>)
    requires forall u :: u in units ==> u.kind == 0
    ensures Systems(w, units) == []
  {
    if units != [] {
      assert units[|units| - 1] in units;
      assert forall u :: u in units[..|units| - 1] ==> u in units;
      SlotsAreNoSystems(w, units[..|units| - 1]);
    }
  }

  function SystemId(s: System): Bytes {
    s.id
  }

  lemma {:induction false} SystemsAreDistinct(w: Work, byId: Responses, units: seq<Unit>)
    requires UnitsFailure(w, byId, units) == None
    ensures DistinctBy(SystemId, Systems(w, units))
  {
    if units != [] {
      var init, last := units[..|units| - 1], units[|units| - 1];
      SystemsAreDistinct(w, byId, init);
      SystemsComeFromUnits(w, init);
      forall i | 0 <= i < |Systems(w, init)| ensures Systems(w, init)[i].id != last.id {
        assert Systems(w, init)[i] in Systems(w, init);
      }
    }
  }

  function SystemPlans(systems: seq<System>): (r: seq<Plan>)
    ensures |r| == |systems|
  {
    seq(|systems|, i requires 0 <= i < |systems| => Plan(systems[i].id, Lifecycle(systems[i])))
  }

  /** All the plans, before they are sorted. */
  lemma AllPlans(w: Work, byId: Responses, rounds: seq<Plan>)
    requires UnitsFailure(w, byId, w.units) == None
    requires DistinctBy(Itself, rounds) && forall p :: p in rounds <==> IsRoundPlan(byId, w.units, p)
    ensures var plans := rounds + SystemPlans(Systems(w, w.units));
            DistinctBy(Itself, plans) && forall p :: p in plans <==> IsPlan(w, byId, p)
  {
    hide Parts, Systems, UnitsFailure, Sort;
    var systems := Systems(w, w.units);
    var tail := SystemPlans(systems);
    SystemsAreDistinct(w, byId, w.units);
    forall i, j | 0 <= i < j < |tail| ensures tail[i] != tail[j] {
      assert SystemId(systems[i]) != SystemId(systems[j]);
    }
    forall p ensures p in tail <==> IsSystemPlan(w, w.units, p) {
      if IsSystemPlan(w, w.units, p) {
        var i :| 0 <= i < |systems| && systems[i] == p.body.system;
        assert tail[i] == p;
      }
    }
    var plans := rounds + tail;
    forall i, j | 0 <= i < j < |plans| ensures plans[i] != plans[j] {
      if i < |rounds| <= j {
        assert plans[i] in rounds && plans[j] in tail;
      } else if j < |rounds| {
        assert Itself(rounds[i]) != Itself(rounds[j]);
      }
    }
  }

  /** Two plans with the same origin are a round and a system unit that share an identity. */
  lemma CollisionsAreEqualOrigins(w: Work, byId: Responses, plans: seq<Plan>)
    requires UnitsFailure(w, byId, w.units) == None
    requires DistinctBy(Itself, plans) && forall p :: p in plans <==> IsPlan(w, byId, p)
    ensures DistinctBy(OriginOf, plans) <==> !Collides(w, byId)
  {
    hide Parts, Systems, UnitsFailure, Sort;
    var systems := Systems(w, w.units);
    if Collides(w, byId) {
      var s :| s in systems && Parts(byId, w.units, s.id) != [];
      var p, q := Plan(s.id, Lifecycle(s)), Plan(s.id, Round(Sort(SlotLess, Parts(byId, w.units, s.id))));
      assert IsPlan(w, byId, p) && IsPlan(w, byId, q);
      var i :| 0 <= i < |plans| && plans[i] == p;
      var j :| 0 <= j < |plans| && plans[j] == q;
      assert OriginOf(plans[i]) == OriginOf(plans[j]);
    } else {
      SystemsAreDistinct(w, byId, w.units);
      forall i, j | 0 <= i < j < |plans| ensures OriginOf(plans[i]) != OriginOf(plans[j]) {
        OneOriginOnePlan(w, byId, plans[i], plans[j]);
        assert Itself(plans[i]) != Itself(plans[j]);
      }
    }
  }

  lemma OneOriginOnePlan(w: Work, byId: Responses, p: Plan, q: Plan)
    requires DistinctBy(SystemId, Systems(w, w.units)) && !Collides(w, byId)
    requires IsPlan(w, byId, p) && IsPlan(w, byId, q)
    ensures p.origin == q.origin ==> p == q
  {
    hide Parts, Systems, Sort;
    var systems := Systems(w, w.units);
    if p.origin == q.origin && IsSystemPlan(w, w.units, p) && IsSystemPlan(w, w.units, q) {
      var i :| 0 <= i < |systems| && systems[i] == p.body.system;
      var j :| 0 <= j < |systems| && systems[j] == q.body.system;
      assert SystemId(systems[i]) == SystemId(systems[j]);
    }
  }

  /** Sorts the plans by origin; two plans with the same origin end up side by side. */
  method SortPlans(plans: seq<Plan>) returns (r: Option<seq<Plan>>)
    ensures r.Some? <==> DistinctBy(OriginOf, plans)
    ensures r.Some? ==> StrictlySorted(OriginLess, r.value) && multiset(r.value) == multiset(plans)
    ensures r.Some? ==> |r.value| == |plans|
  {
    hide Less, OriginLess, OriginOf;
    OrdersByKey();
    var sorted := SortSlice(OriginLess, plans);
    DistinctIgnoresOrder(OriginOf, plans, sorted);
    for i := 0 to |sorted|
      invariant forall j :: 0 < j < i ==> OriginOf(sorted[j - 1]) != OriginOf(sorted[j])
    {
      if i > 0 && OriginOf(sorted[i - 1]) == OriginOf(sorted[i]) {
        return None;
      }
    }
    NeighboursDecide(OriginLess, OriginOf, sorted);
    DistinctIgnoresOrder(OriginOf, sorted, plans);
    SameMembers(sorted, plans);
    return Some(sorted);
  }

  /** Numbers the events, and remembers the event of each system unit. */
  method NumberEvents(plans: seq<Plan>, base: U64) returns (events: seq<Event>, eventOf: map<Bytes, Event>)
    requires DistinctBy(OriginOf, plans)
    ensures Plans(events) == plans
    ensures forall i :: 0 <= i < |events| ==> events[i].sequence == base + i
    ensures forall e :: e in events && e.plan.body.Lifecycle? ==> e.plan.origin in eventOf && eventOf[e.plan.origin] == e
  {
    events, eventOf := [], map[];
    for i := 0 to |plans|
      invariant |events| == i
      invariant forall j :: 0 <= j < i ==> events[j] == Event(plans[j], base + j)
      invariant forall j :: 0 <= j < i && plans[j].body.Lifecycle? ==>
                  plans[j].origin in eventOf && eventOf[plans[j].origin] == Event(plans[j], base + j)
    {
      var event := Event(plans[i], base + i);
      assert forall j :: 0 <= j < i ==> OriginOf(plans[j]) != OriginOf(plans[i]);
      if plans[i].body.Lifecycle? {
        eventOf := eventOf[plans[i].origin := event];
      }
      events := events + [event];
    }
  }

  lemma {:induction false} UnitHasSystem(w: Work, byId: Responses, units: seq<Unit>, u: Unit)
    requires UnitsFailure(w, byId, units) == None && u in units
    ensures u.kind in {0, 2, 3}
    ensures u.kind != 0 ==> exists s :: s in Systems(w, units) && s.id == u.id && s.kind == u.kind
    ensures u.kind == 0 ==> u.id in byId && byId[u.id].digest == u.digest && Part(byId[u.id].slot, u.id, u.digest) in Parts(byId, units, byId[u.id].round)
  {
    var init, last := units[..|units| - 1], units[|units| - 1];
    assert units == init + [last];
    if u != last {
      UnitHasSystem(w, byId, init, u);
    }
  }

  /** The decision about one unit, given the event that settles it. */
  method Decide(u: Unit, eventOf: map<Bytes, Event>, ghost events: seq<Event>) returns (d: Decision)
    requires u.kind != 0 ==> u.id in eventOf && eventOf[u.id] in events
    requires u.kind != 0 ==> eventOf[u.id].plan.origin == u.id && eventOf[u.id].plan.body.Lifecycle?
    ensures IsDecision(u, events, d)
  {
    if u.kind == 0 {
      return Decision(u.id, u.digest, 0, NoProposal, None, None);
    }
    var event := eventOf[u.id];
    return Decision(u.id, u.digest, u.kind, DispositionOf(event.plan.body.system), Some(event), SuccessorOf(event));
  }

  /** One decision for each unit, in fence order, and the successors as they come up. */
  method DecideAll(w: Work, eventOf: map<Bytes, Event>, ghost byId: Responses, ghost events: seq<Event>)
    returns (decisions: seq<Decision>, successors: seq<Successor>)
    requires UnitsFailure(w, byId, w.units) == None
    requires forall p :: p in Plans(events) <==> IsPlan(w, byId, p)
    requires forall e :: e in events && e.plan.body.Lifecycle? ==> e.plan.origin in eventOf && eventOf[e.plan.origin] == e
    ensures |decisions| == |w.units|
    ensures forall i :: 0 <= i < |w.units| ==> IsDecision(w.units[i], events, decisions[i])
    ensures successors == Successors(decisions)
  {
    hide UnitsFailure, IsDecision, IsRoundPlan, Systems;
    decisions, successors := [], [];
    for i := 0 to |w.units|
      invariant |decisions| == i
      invariant forall j :: 0 <= j < i ==> IsDecision(w.units[j], events, decisions[j])
      invariant successors == Successors(decisions)
    {
      var u := w.units[i];
      SettledByAnEvent(w, byId, events, u);
      var d := Decide(u, eventOf, events);
      assert (decisions + [d])[..i] == decisions;
      decisions := decisions + [d];
      if d.successor.Some? {
        successors := successors + [d.successor.value];
      }
    }
  }

  lemma SettledByAnEvent(w: Work, byId: Responses, events: seq<Event>, u: Unit)
    requires UnitsFailure(w, byId, w.units) == None && u in w.units
    requires forall p :: p in Plans(events) <==> IsPlan(w, byId, p)
    ensures u.kind != 0 ==> exists e :: e in events && e.plan.body.Lifecycle? && e.plan.origin == u.id
  {
    hide UnitsFailure, IsRoundPlan, Systems, Parts;
    UnitHasSystem(w, byId, w.units, u);
    if u.kind != 0 {
      var s :| s in Systems(w, w.units) && s.id == u.id && s.kind == u.kind;
      var p := Plan(u.id, Lifecycle(s));
      assert IsPlan(w, byId, p);
      var i :| 0 <= i < |events| && Plans(events)[i] == p;
      assert events[i] in events && events[i].plan == p;
    }
  }

  /** Settles every unit of the fence in one batch, or says why it cannot. */
  method CommitMixed(w: Work) returns (r: Result<Batch, Error>)
    ensures r.Err? <==> Failure(w).Some?
    ensures r.Err? ==> Some(r.error) == Failure(w)
    ensures r.Ok? ==> IsBatch(w, Lookup(w.responses), r.value)
  {
    hide UnitsFailure, Parts, Systems, Less, SystemOf, Rounds, Collides, RepeatedSlot, GroupsAre, DistinctBy, IsPlan, IsBatch,
         UniqueResponses, StrictlySorted, IsRoundPlan, Lookup;
    if w.state.instant != w.instant || w.state.revision != w.baseRevision || w.ordinal > MAX_I64
       || w.state.lastOrdinal >= w.ordinal || w.state.revision == MAX_U64 {
      return Err(StaleCoordinate);
    }
    if |w.units| < 2 {
      return Err(TooFewUnits);
    }
    var indexed := IndexResponses(w.responses);
    if indexed == None {
      return Err(DuplicateResponse);
    }
    var byId := indexed.value;
    var failure, groups, systems := Classify(w, byId);
    if failure.Some? {
      return Err(failure.value);
    }
    ClassesAreGroups(w, byId, groups);
    if |groups| == 0 || |systems| == 0 {
      return Err(BothClassesRequired);
    }
    var rounds := RoundPlans(groups, byId, w.units);
    if rounds == None {
      return Err(DuplicateSlot);
    }
    var plans := rounds.value + SystemPlans(systems);
    if |plans| > MAX_U64 - w.state.nextLogicalSequence {
      return Err(SequenceOverflow);
    }
    AllPlans(w, byId, rounds.value);
    CollisionsAreEqualOrigins(w, byId, plans);
    var sorted := SortPlans(plans);
    if sorted == None {
      return Err(OriginCollision);
    }
    var b := Settle(w, byId, plans, sorted.value);
    return Ok(b);
  }

  lemma ClassesAreGroups(w: Work, byId: Responses, groups: Groups)
    requires UnitsFailure(w, byId, w.units) == None && GroupsAre(groups, byId, w.units)
    ensures groups.Keys == Rounds(byId, w.units)
    ensures |groups| == 0 <==> !exists u :: u in w.units && u.kind == 0
    ensures |Systems(w, w.units)| == 0 <==> !exists u :: u in w.units && u.kind != 0
  {
    hide UnitsFailure, Parts, Systems;
    forall round ensures round in groups <==> round in Rounds(byId, w.units) {
      RoundsAreGroups(byId, w.units, round);
    }
    forall u | u in w.units
      ensures u.kind == 0 ==> u.id in byId && byId[u.id].round in Rounds(byId, w.units)
      ensures u.kind != 0 ==> Systems(w, w.units) != []
    {
      UnitHasSystem(w, byId, w.units, u);
    }
    assert |groups| == |groups.Keys|;
    if Systems(w, w.units) != [] {
      SystemsComeFromUnits(w, w.units);
      assert Systems(w, w.units)[0] in Systems(w, w.units);
      SystemUnitExists(w, w.units, Systems(w, w.units)[0]);
    }
  }

  lemma {:induction false} SystemUnitExists(w: Work, units: seq<Unit>, s: System)
    requires s in Systems(w, units)
    ensures exists u :: u in units && u.kind == s.kind && u.id == s.id && u.digest == s.digest && u.kind in {2, 3}
  {
    var init, last := units[..|units| - 1], units[|units| - 1];
    assert units == init + [last];
    if s in Systems(w, init) {
      SystemUnitExists(w, init, s);
      var u :| u in init && u.kind == s.kind && u.id == s.id && u.digest == s.digest && u.kind in {2, 3};
      assert u in units;
    } else {
      assert last in units;
    }
  }

  method Settle(w: Work, byId: Responses, ghost plans: seq<Plan>, sorted: seq<Plan>) returns (b: Batch)
    requires FreshCoordinate(w) && |sorted| <= MAX_U64 - w.state.nextLogicalSequence
    requires UnitsFailure(w, byId, w.units) == None
    requires forall p :: p in plans <==> IsPlan(w, byId, p)
    requires multiset(sorted) == multiset(plans) && StrictlySorted(OriginLess, sorted) && DistinctBy(OriginOf, plans)
    ensures IsBatch(w, byId, b)
  {
    hide UnitsFailure, IsPlan, IsDecision, OriginLess;
    SameMembers(sorted, plans);
    DistinctIgnoresOrder(OriginOf, plans, sorted);
    var events, eventOf := NumberEvents(sorted, w.state.nextLogicalSequence);
    var decisions, successors := DecideAll(w, eventOf, byId, events);
    b := Batch(Scheduler.WorkClock(w.state, w.ordinal, |events|), decisions, events, successors);
  }
}

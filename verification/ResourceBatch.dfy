/** One WORK commit that settles a contest for the last unit of a resource, together with the
    schedule and trigger units admitted beside it. The effect on the stock is published first; the
    lifecycle of every settled unit follows in the order of its origin. */
module ResourceBatch {
  import opened Bytes
  import opened Domain
  import opened Sorting
  import Clock
  import Kernel
  import Resolver
  import Scheduler
  import opened MixedBatch
  import P = MixedBatchProperties

  /** The one event that changes the world; its identity is a function of these fields. */
  datatype Effect = Effect(source: Bytes, digest: Bytes, sequence: nat)

  datatype Output = Output(effect: Effect, rounds: seq<Plan>, stock: nat)

  /** A slot either produced the effect or was rejected. */
  datatype SlotDecision = SlotDecision(id: Bytes, digest: Bytes, effect: Option<Effect>)

  /** Decisions stand in fence order: the slots, then the schedule and trigger units. */
  datatype ResourceCommit = ResourceCommit(clock: Clock.State, effect: Effect, lifecycles: seq<Event>,
                                           slots: seq<SlotDecision>, systems: seq<Decision>,
                                           successors: seq<Successor>, stock: nat)

  /** A fence that starts with its slot responses, the kernel's verdicts on them, and the stock. */
  datatype Contest = Contest(w: Work, byId: Responses, slots: nat, snapshot: Resolver.Snapshot,
                             prepared: seq<Resolver.Prepared>, resolution: Resolver.Resolution, stock: U64)

  ghost predicate IsContest(c: Contest) {
    && c.slots <= |c.w.units|
    && (forall i :: 0 <= i < c.slots ==> c.w.units[i].kind == 0 && c.w.units[i].id in c.byId)
    && |c.prepared| == |c.resolution.dispositions| == c.slots
    && (forall i :: 0 <= i < c.slots ==> c.prepared[i].id == c.resolution.dispositions[i].subject == c.w.units[i].id)
    && (forall i :: 0 <= i < c.slots && c.resolution.dispositions[i].verdict == Resolver.Allocated ==> c.prepared[i].standing.Viable?)
    && 0 <= c.resolution.left == c.snapshot.available - Resolver.Given(c.prepared, c.resolution.dispositions)
  }

  function SlotUnits(c: Contest): seq<Unit>
    requires c.slots <= |c.w.units|
  {
    c.w.units[..c.slots]
  }

  ghost predicate SoleWinner(c: Contest, k: nat)
    requires IsContest(c)
  {
    && k < c.slots
    && Kernel.Gets(c.prepared, c.resolution.dispositions, k) && c.prepared[k].standing.amount == 1
    && forall j :: 0 <= j < c.slots && j != k ==> !Kernel.Gets(c.prepared, c.resolution.dispositions, j)
  }

  predicate IsTerminal(v: Resolver.Verdict) {
    v != Resolver.NoProposal && !v.Deduplicated?
  }

  ghost predicate SnapshotIsCurrent(c: Contest) {
    c.w.state.revision == c.w.baseRevision && c.stock <= MAX_I64 && c.stock == c.snapshot.available && c.snapshot.known
  }

  ghost predicate Materializes(c: Contest)
    requires IsContest(c)
  {
    && SnapshotIsCurrent(c)
    && (forall d :: d in c.resolution.dispositions ==> IsTerminal(d.verdict))
    && (exists k: nat :: SoleWinner(c, k))
    && !RepeatedSlot(c.byId, SlotUnits(c))
    && |Rounds(c.byId, SlotUnits(c))| <= MAX_U64 - c.w.state.nextLogicalSequence
  }

  ghost predicate IsOutput(c: Contest, out: Output)
    requires IsContest(c)
  {
    && (exists k: nat :: SoleWinner(c, k) && out.effect == Effect(c.w.units[k].id, c.w.units[k].digest, c.w.state.nextLogicalSequence))
    && out.stock + 1 == c.stock && out.stock == c.resolution.left
    && StrictlySorted(OriginLess, out.rounds)
    && (forall p :: p in out.rounds <==> IsRoundPlan(c.byId, SlotUnits(c), p))
    && |out.rounds| == |Rounds(c.byId, SlotUnits(c))|
  }

  // ----- materialising the contest -----

  /** Groups the slots by round and picks out the winners and what they consume. */
  method Tally(c: Contest) returns (ok: bool, groups: Groups, winners: seq<nat>, consumed: nat)
    requires IsContest(c)
    ensures ok <==> forall k :: 0 <= k < c.slots ==>
              && IsTerminal(c.resolution.dispositions[k].verdict)
              && (Kernel.Gets(c.prepared, c.resolution.dispositions, k) ==> c.prepared[k].standing.amount == 1)
    ensures ok ==> GroupsAre(groups, c.byId, SlotUnits(c))
    ensures ok ==> consumed == Resolver.Given(c.prepared, c.resolution.dispositions) == |winners|
    ensures ok ==> forall k: nat :: k in winners <==> k < c.slots && Kernel.Gets(c.prepared, c.resolution.dispositions, k)
    ensures ok ==> forall i, j :: 0 <= i < j < |winners| ==> winners[i] < winners[j]
  {
    hide Parts, GroupsAre, Resolver.Given;
    NothingGiven();
    var units, prepared, dispositions := c.w.units, c.prepared, c.resolution.dispositions;
    groups, winners, consumed := map[], [], 0;
    NothingClassified(c.w, c.byId);
    assert units[..0] == [] && prepared[..0] == [] && dispositions[..0] == [];
    for i := 0 to c.slots
      invariant forall k :: 0 <= k < i ==>
                  && IsTerminal(dispositions[k].verdict)
                  && (Kernel.Gets(prepared, dispositions, k) ==> prepared[k].standing.amount == 1)
      invariant GroupsAre(groups, c.byId, units[..i])
      invariant consumed == Resolver.Given(prepared[..i], dispositions[..i]) == |winners|
      invariant forall k: nat :: k in winners <==> k < i && Kernel.Gets(prepared, dispositions, k)
      invariant forall j :: 0 <= j < |winners| ==> winners[j] < i
      invariant forall j, k :: 0 <= j < k < |winners| ==> winners[j] < winners[k]
    {
      var u, verdict := units[i], dispositions[i].verdict;
      assert units[..i + 1] == units[..i] + [u];
      GivenOneMore(prepared, dispositions, i);
      if verdict == Resolver.NoProposal || verdict.Deduplicated? {
        return false, groups, winners, consumed;
      }
      GroupsOneMore(groups, c.byId, units[..i], u);
      var r := c.byId[u.id];
      groups := groups[r.round := (if r.round in groups then groups[r.round] else []) + [Part(r.slot, u.id, u.digest)]];
      if verdict == Resolver.Allocated {
        if prepared[i].standing.amount != 1 {
          return false, groups, winners, consumed;
        }
        consumed := consumed + prepared[i].standing.amount;
        winners := winners + [i];
      }
    }
    assert prepared[..c.slots] == prepared && dispositions[..c.slots] == dispositions;
    ok := true;
  }

  lemma NothingGiven()
    ensures Resolver.Given([], []) == 0
  {
  }

  lemma GivenOneMore(prepared: seq<Resolver.Prepared>, dispositions: seq<Resolver.Disposition>, i: nat)
    requires i < |prepared| == |dispositions|
    ensures Resolver.Given(prepared[..i + 1], dispositions[..i + 1])
         == Resolver.Given(prepared[..i], dispositions[..i])
            + if dispositions[i].verdict == Resolver.Allocated then Resolver.Want(prepared[i]) else 0
  {
    assert prepared[..i + 1][..i] == prepared[..i] && dispositions[..i + 1][..i] == dispositions[..i];
  }

  lemma OneWinner(c: Contest, winners: seq<nat>)
    requires IsContest(c)
    requires forall k :: 0 <= k < c.slots && Kernel.Gets(c.prepared, c.resolution.dispositions, k) ==> c.prepared[k].standing.amount == 1
    requires forall k: nat :: k in winners <==> k < c.slots && Kernel.Gets(c.prepared, c.resolution.dispositions, k)
    requires forall i, j :: 0 <= i < j < |winners| ==> winners[i] < winners[j]
    ensures |winners| == 1 ==> SoleWinner(c, winners[0])
    ensures (exists k: nat :: SoleWinner(c, k)) ==> |winners| == 1
  {
    if |winners| == 1 {
      assert winners[0] in winners;
      forall j | 0 <= j < c.slots && j != winners[0] ensures !Kernel.Gets(c.prepared, c.resolution.dispositions, j) {
        assert j !in winners;
      }
    }
    if k :| SoleWinner(c, k) {
      assert k in winners;
      if |winners| > 1 {
        assert winners[0] in winners && winners[1] in winners;
      }
    }
  }

  lemma TallyRefuses(c: Contest, k: nat)
    requires IsContest(c) && k < c.slots
    requires IsTerminal(c.resolution.dispositions[k].verdict) ==>
               Kernel.Gets(c.prepared, c.resolution.dispositions, k) && c.prepared[k].standing.amount != 1
    ensures !Materializes(c)
  {
    assert c.resolution.dispositions[k] in c.resolution.dispositions;
  }

  lemma RoundPlansDiffer(byId: Responses, units: seq<Unit>, plans: seq<Plan>)
    requires DistinctBy(Itself, plans) && forall p :: p in plans <==> IsRoundPlan(byId, units, p)
    ensures DistinctBy(OriginOf, plans)
  {
    hide Parts;
    forall i, j | 0 <= i < j < |plans| ensures OriginOf(plans[i]) != OriginOf(plans[j]) {
      assert plans[i] in plans && plans[j] in plans;
      assert Itself(plans[i]) != Itself(plans[j]);
    }
  }

  lemma RoundsOfGroups(byId: Responses, units: seq<Unit>, groups: Groups)
    requires GroupsAre(groups, byId, units)
    ensures groups.Keys == Rounds(byId, units) && |groups| == |Rounds(byId, units)|
  {
    hide Parts, Rounds;
    forall round ensures round in groups <==> round in Rounds(byId, units) {
      RoundsAreGroups(byId, units, round);
    }
    assert |groups| == |groups.Keys|;
  }

  /** The effect of the winner, the smaller stock and a plan for each round. The reducer cannot
      disagree with what the kernel said would be left. */
  method Materialize(c: Contest) returns (r: Option<Output>)
    requires IsContest(c)
    ensures r.Some? <==> Materializes(c)
    ensures r.Some? ==> IsOutput(c, r.value)
  {
    hide GroupsAre, Parts, IsRoundPlan, RepeatedSlot, Rounds, Less;
    if c.w.state.revision != c.w.baseRevision || c.stock > MAX_I64 || c.stock != c.snapshot.available || !c.snapshot.known {
      return None;
    }
    var ok, groups, winners, consumed := Tally(c);
    if !ok {
      ghost var k: nat :| k < c.slots && (IsTerminal(c.resolution.dispositions[k].verdict) ==>
                      Kernel.Gets(c.prepared, c.resolution.dispositions, k) && c.prepared[k].standing.amount != 1);
      TallyRefuses(c, k);
      return None;
    }
    OneWinner(c, winners);
    if consumed != 1 || |winners| != 1 {
      return None;
    }
    var k := winners[0];
    assert SoleWinner(c, k) && c.prepared[k].standing.amount == 1;
    if c.stock < consumed {
      assert false;
    }
    var stock := c.stock - consumed;
    if stock != c.resolution.left {
      assert false;
    }
    var plans := RoundPlans(groups, c.byId, SlotUnits(c));
    if plans == None {
      return None;
    }
    RoundPlansDiffer(c.byId, SlotUnits(c), plans.value);
    var sorted := SortPlans(plans.value);
    SameMembers(sorted.value, plans.value);
    RoundsOfGroups(c.byId, SlotUnits(c), groups);
    if |sorted.value| > MAX_U64 - c.w.state.nextLogicalSequence {
      return None;
    }
    return Some(Output(Effect(c.w.units[k].id, c.w.units[k].digest, c.w.state.nextLogicalSequence), sorted.value, stock));
  }

  // ----- the units admitted beside the contest -----

  predicate SourceMatches(w: Work, u: Unit) {
    && (u.kind == 2 || u.kind == 3)
    && u.id in w.sources && w.sources[u.id].kind == u.kind && w.sources[u.id].digest == u.digest && w.sources[u.id].owner == u.source
    && SystemOf(u, w.sources[u.id], w.instant).Ok?
  }

  lemma {:induction false} PartsAreInSlots(byId: Responses, units: seq<Unit>, n: nat, round: Bytes)
    requires n <= |units| && forall i :: n <= i < |units| ==> units[i].kind != 0
    ensures Parts(byId, units, round) == Parts(byId, units[..n], round)
  {
    if n < |units| {
      PartsAreInSlots(byId, units[..|units| - 1], n, round);
      assert units[..|units| - 1][..n] == units[..n];
    } else {
      assert units[..n] == units;
    }
  }

  /** Settles every schedule and trigger unit after the slots. */
  method SettleRest(w: Work, n: nat) returns (systems: Option<seq<System>>)
    requires n <= |w.units| && forall i :: 0 <= i < n ==> w.units[i].kind == 0
    ensures systems.Some? <==> forall i :: n <= i < |w.units| ==> SourceMatches(w, w.units[i])
    ensures systems.Some? ==> systems.value == Systems(w, w.units) && |systems.value| == |w.units| - n
    ensures systems.Some? ==> forall i :: n <= i < |w.units| ==> systems.value[i - n].id == w.units[i].id
  {
    hide Systems, SystemOf;
    SlotsAreNoSystems(w, w.units[..n]);
    var settled: seq<System> := [];
    for i := n to |w.units|
      invariant forall k :: n <= k < i ==> SourceMatches(w, w.units[k])
      invariant settled == Systems(w, w.units[..i]) && |settled| == i - n
      invariant forall k :: n <= k < i ==> settled[k - n].id == w.units[k].id
    {
      var u := w.units[i];
      assert w.units[..i + 1] == w.units[..i] + [u];
      SystemsOneMore(w, w.units[..i], u);
      if (u.kind != 2 && u.kind != 3) || u.id !in w.sources {
        return None;
      }
      var s := w.sources[u.id];
      if s.kind != u.kind || s.digest != u.digest || s.owner != u.source {
        return None;
      }
      var system := SystemOf(u, s, w.instant);
      if system.Err? {
        return None;
      }
      SystemKeepsId(u, s, w.instant);
      settled := settled + [system.value];
    }
    assert w.units[..|w.units|] == w.units;
    return Some(settled);
  }

  lemma SystemKeepsId(u: Unit, s: Source, instant: I64)
    ensures SystemOf(u, s, instant).Ok? ==> SystemOf(u, s, instant).value.id == u.id
  {
  }

  // ----- the lifecycle of everything that was settled -----

  /** The lifecycle events are numbered from one past the effect. */
  function Shifted(w: Work): (r: Work)
    requires w.state.nextLogicalSequence < MAX_U64
    ensures r.units == w.units && r.sources == w.sources && r.instant == w.instant
  {
    w.(state := w.state.(nextLogicalSequence := w.state.nextLogicalSequence + 1))
  }

  ghost predicate SharedOrigin(w: Work, byId: Responses) {
    !DistinctBy(SystemId, Systems(w, w.units)) || Collides(w, byId)
  }

  lemma OriginsDecide(w: Work, byId: Responses, rounds: seq<Plan>)
    requires DistinctBy(OriginOf, rounds) && forall p :: p in rounds <==> IsRoundPlan(byId, w.units, p)
    ensures var plans := rounds + SystemPlans(Systems(w, w.units));
            && (forall p :: p in plans <==> IsPlan(w, byId, p))
            && (DistinctBy(OriginOf, plans) <==> !SharedOrigin(w, byId))
  {
    hide Parts, Systems, Sort, IsRoundPlan;
    var systems := Systems(w, w.units);
    var tail := SystemPlans(systems);
    var plans := rounds + tail;
    forall p ensures p in tail <==> IsSystemPlan(w, w.units, p) {
      if IsSystemPlan(w, w.units, p) {
        var i :| 0 <= i < |systems| && systems[i] == p.body.system;
        assert tail[i] == p;
      }
    }
    if DistinctBy(OriginOf, plans) {
      NoSharedOrigin(w, byId, rounds);
    }
    forall i, j | !SharedOrigin(w, byId) && 0 <= i < j < |plans| ensures OriginOf(plans[i]) != OriginOf(plans[j]) {
      if j < |rounds| {
        assert OriginOf(rounds[i]) != OriginOf(rounds[j]);
      } else if |rounds| <= i {
        assert SystemId(systems[i - |rounds|]) != SystemId(systems[j - |rounds|]);
      } else {
        assert plans[i] in rounds && systems[j - |rounds|] in systems;
        RoundHasParts(byId, w.units, plans[i]);
      }
    }
  }

  lemma RoundHasParts(byId: Responses, units: seq<Unit>, p: Plan)
    requires IsRoundPlan(byId, units, p)
    ensures Parts(byId, units, p.origin) != []
  {
  }

  lemma NoSharedOrigin(w: Work, byId: Responses, rounds: seq<Plan>)
    requires forall p :: p in rounds <==> IsRoundPlan(byId, w.units, p)
    requires DistinctBy(OriginOf, rounds + SystemPlans(Systems(w, w.units)))
    ensures !SharedOrigin(w, byId)
  {
    hide Parts, Systems, Sort;
    var systems := Systems(w, w.units);
    var plans := rounds + SystemPlans(systems);
    forall i, j | 0 <= i < j < |systems| ensures SystemId(systems[i]) != SystemId(systems[j]) {
      assert OriginOf(plans[|rounds| + i]) != OriginOf(plans[|rounds| + j]);
    }
    forall i, j | 0 <= i < |rounds| && 0 <= j < |systems| ensures rounds[i].origin != systems[j].id {
      assert OriginOf(plans[i]) != OriginOf(plans[|rounds| + j]);
    }
    forall s | s in systems ensures Parts(byId, w.units, s.id) == [] {
      var p := Plan(s.id, Round(Sort(SlotLess, Parts(byId, w.units, s.id))));
      assert p in rounds <==> Parts(byId, w.units, s.id) != [];
    }
  }

  lemma SlotPlansAreAllPlans(byId: Responses, units: seq<Unit>, n: nat)
    requires n <= |units| && forall i :: n <= i < |units| ==> units[i].kind != 0
    ensures forall p :: IsRoundPlan(byId, units[..n], p) <==> IsRoundPlan(byId, units, p)
  {
    hide Parts;
    forall p ensures IsRoundPlan(byId, units[..n], p) <==> IsRoundPlan(byId, units, p) {
      PartsAreInSlots(byId, units, n, p.origin);
    }
  }

  /** The decision about every unit after the slots, and the successors of those that are deferred. */
  method DecideRest(w: Work, n: nat, systems: seq<System>, eventOf: map<Bytes, Event>, ghost events: seq<Event>)
    returns (decisions: seq<Decision>, successors: seq<Successor>)
    requires n <= |w.units| && |systems| == |w.units| - n
    requires forall i :: n <= i < |w.units| ==> w.units[i].kind != 0 && systems[i - n].id == w.units[i].id
    requires forall s :: s in systems ==> Plan(s.id, Lifecycle(s)) in Plans(events)
    requires forall e :: e in events && e.plan.body.Lifecycle? ==> e.plan.origin in eventOf && eventOf[e.plan.origin] == e
    ensures |decisions| == |w.units| - n
    ensures forall i :: n <= i < |w.units| ==> IsDecision(w.units[i], events, decisions[i - n])
    ensures successors == Successors(decisions)
  {
    hide IsDecision;
    decisions, successors := [], [];
    for i := n to |w.units|
      invariant |decisions| == i - n
      invariant forall k :: n <= k < i ==> IsDecision(w.units[k], events, decisions[k - n])
      invariant successors == Successors(decisions)
    {
      var s := systems[i - n];
      assert s in systems;
      ghost var k :| 0 <= k < |events| && Plans(events)[k] == Plan(s.id, Lifecycle(s));
      assert events[k] in events && events[k].plan == Plan(s.id, Lifecycle(s));
      var d := Decide(w.units[i], eventOf, events);
      assert (decisions + [d])[..|decisions|] == decisions;
      decisions := decisions + [d];
      if d.successor.Some? {
        successors := successors + [d.successor.value];
      }
    }
  }

  // ----- the commit -----

  /** One contender that is served, or two of which one is. */
  predicate IsSettled(c: Contest)
    requires |c.resolution.dispositions| == c.slots
  {
    var d := c.resolution.dispositions;
    || (c.slots == 1 && d[0].verdict == Resolver.Allocated)
    || (c.slots == 2 && c.stock == 1
        && (d[0].verdict == Resolver.Allocated || d[0].verdict == Resolver.Outdrawn)
        && (d[1].verdict == Resolver.Allocated || d[1].verdict == Resolver.Outdrawn))
  }

  ghost predicate Commits(c: Contest)
    requires IsContest(c)
  {
    && FreshCoordinate(c.w)
    && IsSettled(c)
    && Materializes(c)
    && |Rounds(c.byId, SlotUnits(c))| == c.slots
    && (forall i :: c.slots <= i < |c.w.units| ==> SourceMatches(c.w, c.w.units[i]))
    && 1 + |c.w.units| <= MAX_U64 - c.w.state.nextLogicalSequence
    && !SharedOrigin(c.w, c.byId)
  }

  ghost predicate IsSlotDecision(u: Unit, verdict: Resolver.Verdict, effect: Effect, d: SlotDecision) {
    d == SlotDecision(u.id, u.digest, if verdict == Resolver.Allocated then Some(effect) else None)
  }

  /** The effect first, then one lifecycle event for each settled round and unit, numbered without
      a gap; a decision for every unit in fence order; the stock down by one. */
  ghost predicate IsCommit(c: Contest, b: ResourceCommit)
    requires IsContest(c)
  {
    && (exists k: nat :: SoleWinner(c, k) && b.effect == Effect(c.w.units[k].id, c.w.units[k].digest, c.w.state.nextLogicalSequence))
    && c.w.state.nextLogicalSequence < MAX_U64
    && IsEventList(Shifted(c.w), c.byId, b.lifecycles)
    && |b.slots| == c.slots
    && (forall i :: 0 <= i < c.slots ==> IsSlotDecision(c.w.units[i], c.resolution.dispositions[i].verdict, b.effect, b.slots[i]))
    && |b.systems| == |c.w.units| - c.slots
    && (forall i :: c.slots <= i < |c.w.units| ==> IsDecision(c.w.units[i], b.lifecycles, b.systems[i - c.slots]))
    && b.successors == Successors(b.systems)
    && b.stock + 1 == c.stock && b.stock == c.resolution.left
    && Scheduler.WorkGuard(c.w.state, c.w.ordinal, 1 + |b.lifecycles|)
    && b.clock == Scheduler.WorkClock(c.w.state, c.w.ordinal, 1 + |b.lifecycles|)
  }

  /** Commits the contest, with whatever else the fence admits, or refuses it. */
  method CommitContest(c: Contest) returns (r: Option<ResourceCommit>)
    requires IsContest(c)
    ensures r.Some? <==> Commits(c)
    ensures r.Some? ==> IsCommit(c, r.value)
  {
    hide Rounds, IsCommit, IsRoundPlan, StrictlySorted, SoleWinner, Materializes, SharedOrigin, SourceMatches, Resolver.Given;
    var w := c.w;
    if w.state.instant != w.instant || w.state.revision != w.baseRevision || w.ordinal > MAX_I64
       || w.state.lastOrdinal >= w.ordinal || w.state.revision == MAX_U64 {
      return None;
    }
    if !IsSettled(c) {
      return None;
    }
    var output := Materialize(c);
    if output == None || |output.value.rounds| != c.slots {
      return None;
    }
    r := Merge(c, output.value);
  }

  /** Sorts the events of the contest's rounds together with those of the units admitted beside it,
      and numbers them again behind the effect. */
  method MergeLifecycles(c: Contest, rounds: seq<Plan>)
    returns (ok: bool, systems: seq<System>, lifecycles: seq<Event>, eventOf: map<Bytes, Event>)
    requires IsContest(c) && |rounds| == c.slots && StrictlySorted(OriginLess, rounds)
    requires forall p :: p in rounds <==> IsRoundPlan(c.byId, SlotUnits(c), p)
    ensures ok <==>
            && (forall i :: c.slots <= i < |c.w.units| ==> SourceMatches(c.w, c.w.units[i]))
            && 1 + |c.w.units| <= MAX_U64 - c.w.state.nextLogicalSequence
            && !SharedOrigin(c.w, c.byId)
    ensures ok ==> |systems| == |c.w.units| - c.slots && |lifecycles| == |c.w.units|
    ensures ok ==> forall i :: c.slots <= i < |c.w.units| ==> c.w.units[i].kind != 0 && systems[i - c.slots].id == c.w.units[i].id
    ensures ok ==> IsEventList(Shifted(c.w), c.byId, lifecycles)
    ensures ok ==> forall s :: s in systems ==> Plan(s.id, Lifecycle(s)) in Plans(lifecycles)
    ensures ok ==> forall e :: e in lifecycles && e.plan.body.Lifecycle? ==> e.plan.origin in eventOf && eventOf[e.plan.origin] == e
  {
    hide Parts, Systems, SystemOf, IsRoundPlan, IsEventList, SharedOrigin, Collides, DistinctBy, IsPlan, Less, StrictlySorted,
         SourceMatches, IsContest;
    systems, lifecycles, eventOf := [], [], map[];
    var w := c.w;
    SlotsAreSlots(c);
    var settled := SettleRest(w, c.slots);
    if settled == None {
      return false, systems, lifecycles, eventOf;
    }
    systems := settled.value;
    if |systems| + 1 + c.slots > MAX_U64 - w.state.nextLogicalSequence {
      return false, systems, lifecycles, eventOf;
    }
    RestIsNotSlots(c);
    SlotPlansAreAllPlans(c.byId, w.units, c.slots);
    StrictIsDistinct(rounds);
    OriginsDecide(w, c.byId, rounds);
    var plans := rounds + SystemPlans(systems);
    var sorted := SortPlans(plans);
    if sorted == None {
      return false, systems, lifecycles, eventOf;
    }
    SameMembers(sorted.value, plans);
    DistinctIgnoresOrder(OriginOf, plans, sorted.value);
    lifecycles, eventOf := NumberEvents(sorted.value, w.state.nextLogicalSequence + 1);
    ShiftedList(c, lifecycles);
    SystemsArePlanned(w, rounds, systems, lifecycles);
    assert |lifecycles| == |Plans(lifecycles)|;
    ok := true;
  }

  lemma SlotsAreSlots(c: Contest)
    requires IsContest(c)
    ensures c.slots <= |c.w.units| && forall i :: 0 <= i < c.slots ==> c.w.units[i].kind == 0
  {
  }

  /** Puts the batch together; the effect stays in front. */
  method Merge(c: Contest, output: Output) returns (r: Option<ResourceCommit>)
    requires IsContest(c) && FreshCoordinate(c.w) && IsOutput(c, output) && |output.rounds| == c.slots
    ensures r.Some? <==>
            && (forall i :: c.slots <= i < |c.w.units| ==> SourceMatches(c.w, c.w.units[i]))
            && 1 + |c.w.units| <= MAX_U64 - c.w.state.nextLogicalSequence
            && !SharedOrigin(c.w, c.byId)
    ensures r.Some? ==> IsCommit(c, r.value)
  {
    hide IsRoundPlan, IsEventList, SharedOrigin, IsDecision, StrictlySorted, SourceMatches, Resolver.Given, SoleWinner, Less, Rounds,
         Successors, Plans;
    var w := c.w;
    var ok, systems, lifecycles, eventOf := MergeLifecycles(c, output.rounds);
    if !ok {
      return None;
    }
    var decisions, successors := DecideRest(w, c.slots, systems, eventOf, lifecycles);
    var slots := SlotDecisions(c, output.effect);
    return Some(ResourceCommit(Scheduler.WorkClock(w.state, w.ordinal, 1 + |lifecycles|), output.effect, lifecycles,
                               slots, decisions, successors, output.stock));
  }

  lemma RestIsNotSlots(c: Contest)
    requires IsContest(c) && forall i :: c.slots <= i < |c.w.units| ==> SourceMatches(c.w, c.w.units[i])
    ensures forall i :: c.slots <= i < |c.w.units| ==> c.w.units[i].kind != 0
  {
  }

  lemma StrictIsDistinct(plans: seq<Plan>)
    requires StrictlySorted(OriginLess, plans)
    ensures DistinctBy(OriginOf, plans)
  {
    forall i, j | 0 <= i < j < |plans| ensures OriginOf(plans[i]) != OriginOf(plans[j]) {
      assert OriginLess(plans[i], plans[j]);
      LessIrreflexive(plans[i].origin);
    }
  }

  lemma ShiftedList(c: Contest, events: seq<Event>)
    requires IsContest(c) && c.w.state.nextLogicalSequence < MAX_U64
    requires StrictlySorted(OriginLess, Plans(events)) && forall p :: p in Plans(events) <==> IsPlan(c.w, c.byId, p)
    requires forall i :: 0 <= i < |events| ==> events[i].sequence == c.w.state.nextLogicalSequence + 1 + i
    ensures IsEventList(Shifted(c.w), c.byId, events)
  {
    hide IsRoundPlan, Systems;
    SameSystems(c.w, Shifted(c.w), c.w.units);
  }

  lemma {:induction false} SameSystems(w: Work, v: Work, units: seq<Unit>)
    requires w.sources == v.sources && w.instant == v.instant
    ensures Systems(w, units) == Systems(v, units)
  {
    if units != [] {
      SameSystems(w, v, units[..|units| - 1]);
    }
  }

  lemma SystemsArePlanned(w: Work, rounds: seq<Plan>, systems: seq<System>, events: seq<Event>)
    requires multiset(Plans(events)) == multiset(rounds + SystemPlans(systems))
    ensures forall s :: s in systems ==> Plan(s.id, Lifecycle(s)) in Plans(events)
  {
    SameMembers(Plans(events), rounds + SystemPlans(systems));
    forall s | s in systems ensures Plan(s.id, Lifecycle(s)) in Plans(events) {
      var i :| 0 <= i < |systems| && systems[i] == s;
      assert SystemPlans(systems)[i] in rounds + SystemPlans(systems);
    }
  }

  method SlotDecisions(c: Contest, effect: Effect) returns (slots: seq<SlotDecision>)
    requires IsContest(c)
    ensures |slots| == c.slots
    ensures forall i :: 0 <= i < c.slots ==> IsSlotDecision(c.w.units[i], c.resolution.dispositions[i].verdict, effect, slots[i])
  {
    slots := [];
    for i := 0 to c.slots
      invariant |slots| == i
      invariant forall k :: 0 <= k < i ==> IsSlotDecision(c.w.units[k], c.resolution.dispositions[k].verdict, effect, slots[k])
    {
      var u := c.w.units[i];
      var produced := if c.resolution.dispositions[i].verdict == Resolver.Allocated then Some(effect) else None;
      slots := slots + [SlotDecision(u.id, u.digest, produced)];
    }
  }

  // ----- what a commit conserves -----

  /** Every admitted unit is named by exactly one lifecycle event and nothing else is; exactly one
      slot produced the effect, and it took one from the stock. */
  lemma ContestIsConserved(c: Contest, b: ResourceCommit)
    requires IsContest(c) && Commits(c) && IsCommit(c, b)
    requires AreAuthentic(c)
    ensures forall u :: u in c.w.units ==> exists e :: e in b.lifecycles && P.Names(e, u.id)
    ensures forall e, f, id :: e in b.lifecycles && f in b.lifecycles && P.Names(e, id) && P.Names(f, id) ==> e == f
    ensures forall e, id :: e in b.lifecycles && P.Names(e, id) ==> HasId(c.w.units, id)
    ensures exists k :: 0 <= k < c.slots && b.slots[k].effect == Some(b.effect) && b.effect.source == c.w.units[k].id
                        && forall j :: 0 <= j < c.slots && j != k ==> b.slots[j].effect == None
    ensures b.stock == c.stock - 1
  {
    hide UnitsFailure, IsEventList, P.Names, IsDecision, Resolver.Given, Materializes, SharedOrigin, Parts;
    var v := Shifted(c.w);
    var byId := AsSettled(c.byId);
    EverythingSettles(c, c.w.units);
    SameFailure(c.w, v, byId, c.w.units);
    SameEvents(c, b.lifecycles);
    forall u | u in c.w.units ensures exists e :: e in b.lifecycles && P.Names(e, u.id) {
      P.EveryUnitIsConsumed(v, byId, b.lifecycles, u);
      var e :| e in b.lifecycles && P.Consumes(byId, e, u);
      P.ConsumingNames(byId, e, u);
    }
    forall e, f, id | e in b.lifecycles && f in b.lifecycles && P.Names(e, id) && P.Names(f, id) ensures e == f {
      P.ConsumedOnce(v, byId, b.lifecycles, e, f, id);
    }
    forall e, id | e in b.lifecycles && P.Names(e, id) ensures HasId(c.w.units, id) {
      P.OnlyUnitsAreConsumed(v, byId, b.lifecycles, e, id);
    }
    var k: nat :| SoleWinner(c, k) && b.effect == Effect(c.w.units[k].id, c.w.units[k].digest, c.w.state.nextLogicalSequence);
    assert b.slots[k].effect == Some(b.effect);
    forall j | 0 <= j < c.slots && j != k ensures b.slots[j].effect == None {
      assert !Kernel.Gets(c.prepared, c.resolution.dispositions, j);
    }
  }

  /** What the fence guarantees: distinct units, and slots with the digests of their responses. */
  ghost predicate AreAuthentic(c: Contest) {
    && (forall i, j :: 0 <= i < j < |c.w.units| ==> c.w.units[i].id != c.w.units[j].id)
    && forall i :: 0 <= i < c.slots <= |c.w.units| && c.w.units[i].id in c.byId ==> c.byId[c.w.units[i].id].digest == c.w.units[i].digest
  }

  /** The responses, with the kind the mixed batch looks for; grouping never reads the kind. */
  ghost function AsSettled(byId: Responses): Responses {
    map id | id in byId :: byId[id].(kind := 1)
  }

  lemma {:induction false} SameParts(byId: Responses, units: seq<Unit>, round: Bytes)
    ensures Parts(AsSettled(byId), units, round) == Parts(byId, units, round)
  {
    if units != [] {
      SameParts(byId, units[..|units| - 1], round);
    }
  }

  lemma SameEvents(c: Contest, events: seq<Event>)
    requires IsContest(c) && c.w.state.nextLogicalSequence < MAX_U64 && IsEventList(Shifted(c.w), c.byId, events)
    ensures IsEventList(Shifted(c.w), AsSettled(c.byId), events)
  {
    hide Systems, AsSettled;
    forall p ensures IsPlan(Shifted(c.w), AsSettled(c.byId), p) <==> IsPlan(Shifted(c.w), c.byId, p) {
      SameParts(c.byId, c.w.units, p.origin);
    }
  }

  lemma {:induction false} SameFailure(w: Work, v: Work, byId: Responses, units: seq<Unit>)
    requires w.sources == v.sources && w.instant == v.instant
    ensures UnitsFailure(w, byId, units) == UnitsFailure(v, byId, units)
  {
    if units != [] {
      SameFailure(w, v, byId, units[..|units| - 1]);
    }
  }

  lemma {:induction false} EverythingSettles(c: Contest, units: seq<Unit>)
    requires IsContest(c) && AreAuthentic(c) && units <= c.w.units
    requires forall i :: c.slots <= i < |c.w.units| ==> SourceMatches(c.w, c.w.units[i])
    ensures UnitsFailure(c.w, AsSettled(c.byId), units) == None
  {
    if units != [] {
      var n := |units| - 1;
      EverythingSettles(c, units[..n]);
      assert units[n] == c.w.units[n];
      assert !HasId(units[..n], units[n].id);
    }
  }

  /** Neither map iteration nor the sort leaves a choice: a contest has one commit. */
  lemma CommitIsUnique(c: Contest, a: ResourceCommit, b: ResourceCommit)
    requires IsContest(c) && IsCommit(c, a) && IsCommit(c, b)
    ensures a == b
  {
    hide IsPlan, Kernel.Gets, IsDecision, Resolver.Given;
    var v := Shifted(c.w);
    SameWinner(c, a.effect, b.effect);
    OneEventList(v, c.byId, a.lifecycles, b.lifecycles);
    forall i | 0 <= i < |a.systems| ensures a.systems[i] == b.systems[i] {
      assert IsDecision(c.w.units[c.slots + i], a.lifecycles, a.systems[c.slots + i - c.slots]);
      assert IsDecision(c.w.units[c.slots + i], b.lifecycles, b.systems[c.slots + i - c.slots]);
      P.OneDecision(v, c.byId, a.lifecycles, c.w.units[c.slots + i], a.systems[i], b.systems[i]);
    }
    assert a.systems == b.systems;
    forall i | 0 <= i < c.slots ensures a.slots[i] == b.slots[i] {
      assert IsSlotDecision(c.w.units[i], c.resolution.dispositions[i].verdict, a.effect, a.slots[i]);
    }
    assert a.slots == b.slots;
  }

  lemma SameWinner(c: Contest, a: Effect, b: Effect)
    requires IsContest(c)
    requires exists k: nat :: SoleWinner(c, k) && a == Effect(c.w.units[k].id, c.w.units[k].digest, c.w.state.nextLogicalSequence)
    requires exists k: nat :: SoleWinner(c, k) && b == Effect(c.w.units[k].id, c.w.units[k].digest, c.w.state.nextLogicalSequence)
    ensures a == b
  {
    hide Kernel.Gets;
    var j: nat :| SoleWinner(c, j) && a == Effect(c.w.units[j].id, c.w.units[j].digest, c.w.state.nextLogicalSequence);
    var k: nat :| SoleWinner(c, k) && b == Effect(c.w.units[k].id, c.w.units[k].digest, c.w.state.nextLogicalSequence);
  }

  lemma OneEventList(w: Work, byId: Responses, a: seq<Event>, b: seq<Event>)
    requires IsEventList(w, byId, a) && IsEventList(w, byId, b)
    ensures a == b
  {
    hide IsPlan;
    OrdersByKey();
    StrictlySortedUnique(OriginLess, Plans(a), Plans(b));
    assert |a| == |Plans(a)|;
    forall i | 0 <= i < |a| ensures a[i] == b[i] {
      assert Plans(a)[i] == Plans(b)[i];
    }
  }

  // ----- from the kernel to the commit -----

  /** The kernel's resolution of the slots of a fence always makes a contest. */
  lemma ResolutionsAreContests(c: Contest, req: Resolver.Request, candidateOf: Bytes -> Bytes, draw: seq<Bytes> -> bool)
    requires Kernel.OneToOne(candidateOf) && Resolver.Failure(req) == None && c.prepared == Resolver.PreparedOf(req)
    requires Resolver.IsResolution(req.snapshot, c.prepared, candidateOf, draw, c.resolution)
    requires c.snapshot == req.snapshot && c.slots == |req.admitted| <= |c.w.units|
    requires forall i :: 0 <= i < c.slots ==>
               c.w.units[i].kind == 0 && c.w.units[i].id in c.byId && c.w.units[i].id == req.admitted[i]
    ensures IsContest(c)
  {
    hide Resolver.Given, Resolver.Wanted, Resolver.WellFormed, Resolver.AliasesOf, Resolver.Historical, Resolver.Wins;
    Kernel.StockIsConserved(req, candidateOf, draw, c.resolution);
    Kernel.VerdictsFollowTheFence(req, candidateOf, draw, c.resolution);
    forall i | 0 <= i < c.slots
      ensures c.resolution.dispositions[i].verdict == Resolver.Allocated ==> c.prepared[i].standing.Viable?
    {
      Kernel.LosersLoseToSomeone(req, candidateOf, draw, c.resolution, i);
    }
  }
}

/** The WORK commit in which nobody proposed anything: one lifecycle event for each round of the
    cohort. A fence with any other unit is passed on to the mixed handler. */
module NoProposalBatch {
  import opened Bytes
  import opened Domain
  import opened Sorting
  import opened MixedBatch
  import P = MixedBatchProperties

  function SameId(id: Bytes): Bytes {
    id
  }

  predicate AllSlots(units: seq<Unit>) {
    forall u :: u in units ==> u.kind == 0
  }

  /** The fence's cohort lists the rounds of its slots, each once. */
  ghost predicate IsCohort(cohort: seq<Bytes>, byId: Responses, units: seq<Unit>) {
    DistinctBy(SameId, cohort) && forall round :: round in cohort <==> round in Rounds(byId, units)
  }

  ghost predicate Commits(w: Work, cohort: seq<Bytes>) {
    && FreshCoordinate(w)
    && UniqueResponses(w.responses)
    && w.units != []
    && UnitsFailure(w, Lookup(w.responses), w.units) == None
    && IsCohort(cohort, Lookup(w.responses), w.units)
    && !RepeatedSlot(Lookup(w.responses), w.units)
    && |cohort| <= MAX_U64 - w.state.nextLogicalSequence
  }

  lemma IdsAreOrdered()
    ensures Orders(Less, SameId)
  {
    forall a ensures !Less(a, a) {
      LessIrreflexive(a);
    }
    forall a, b, c | Less(a, b) && Less(b, c) ensures Less(a, c) {
      LessTransitive(a, b, c);
    }
    forall a, b ensures Less(a, b) || a == b || Less(b, a) {
      LessTotal(a, b);
    }
  }

  /** The plan of one round, unless it has no filled slot or one filled twice. */
  method PlanRound(round: Bytes, groups: Groups, ghost byId: Responses, ghost units: seq<Unit>) returns (plan: Option<Plan>)
    requires GroupsAre(groups, byId, units)
    ensures plan == None ==> round !in Rounds(byId, units) || RepeatedSlot(byId, units)
    ensures plan.Some? ==> plan.value.origin == round && IsRoundPlan(byId, units, plan.value)
    ensures plan.Some? ==> round in groups && DistinctSlots(Parts(byId, units, round))
  {
    hide Parts, Less, Sort, DistinctSlots, GroupsAre, Rounds;
    GroupOf(groups, byId, units, round);
    if round !in groups {
      return None;
    }
    var parts := SortParts(groups[round]);
    if parts == None {
      return None;
    }
    return Some(Plan(round, Round(parts.value)));
  }

  /** One plan for each round of the sorted cohort, in which two equal rounds are neighbours. */
  method PlanRounds(cohort: seq<Bytes>, groups: Groups, ghost byId: Responses, ghost units: seq<Unit>) returns (plans: Option<seq<Plan>>)
    requires GroupsAre(groups, byId, units) && |cohort| == |groups|
    ensures plans.Some? <==> IsCohort(cohort, byId, units) && !RepeatedSlot(byId, units)
    ensures plans.Some? ==> StrictlySorted(OriginLess, plans.value) && |plans.value| == |cohort|
    ensures plans.Some? ==> forall p :: p in plans.value <==> IsRoundPlan(byId, units, p)
  {
    hide Parts, Less, Sort, DistinctSlots, GroupsAre, SameId, Rounds, IsRoundPlan, RepeatedSlot, StrictlySorted, Orders, IsCohort,
         Sorted, Planned;
    IdsAreOrdered();
    OrdersAreStrict();
    var ordered := SortSlice(Less, cohort);
    CohortIgnoresOrder(cohort, ordered, byId, units);
    var list: seq<Plan> := [];
    NothingPlanned(ordered, groups, byId, units);
    for i := 0 to |ordered|
      invariant |list| == i && Planned(list, ordered, groups, byId, units)
    {
      var round := ordered[i];
      NotACohort(ordered, i, byId, units);
      if i > 0 && SameId(ordered[i - 1]) == SameId(round) {
        return None;
      }
      var plan := PlanRound(round, groups, byId, units);
      if plan == None {
        return None;
      }
      PlannedOneMore(list, ordered, groups, byId, units, plan.value);
      list := list + [plan.value];
    }
    AllPlanned(ordered, list, groups, byId, units);
    return Some(list);
  }

  /** The plans so far are those of the first rounds, which differ from their neighbours. */
  ghost predicate Planned(list: seq<Plan>, ordered: seq<Bytes>, groups: Groups, byId: Responses, units: seq<Unit>) {
    && |list| <= |ordered|
    && (forall j :: 0 < j < |list| ==> SameId(ordered[j - 1]) != SameId(ordered[j]))
    && (forall j :: 0 <= j < |list| ==> list[j].origin == ordered[j] && IsRoundPlan(byId, units, list[j]))
    && (forall j :: 0 <= j < |list| ==> ordered[j] in groups && DistinctSlots(Parts(byId, units, ordered[j])))
  }

  lemma NothingPlanned(ordered: seq<Bytes>, groups: Groups, byId: Responses, units: seq<Unit>)
    ensures Planned([], ordered, groups, byId, units)
  {
  }

  lemma PlannedOneMore(list: seq<Plan>, ordered: seq<Bytes>, groups: Groups, byId: Responses, units: seq<Unit>, p: Plan)
    requires Planned(list, ordered, groups, byId, units) && |list| < |ordered|
    requires var i := |list|;
             && (i > 0 ==> SameId(ordered[i - 1]) != SameId(ordered[i]))
             && p.origin == ordered[i] && IsRoundPlan(byId, units, p)
             && ordered[i] in groups && DistinctSlots(Parts(byId, units, ordered[i]))
    ensures Planned(list + [p], ordered, groups, byId, units)
  {
    hide Parts, IsRoundPlan, DistinctSlots, SameId;
  }

  lemma AllPlanned(ordered: seq<Bytes>, list: seq<Plan>, groups: Groups, byId: Responses, units: seq<Unit>)
    requires Planned(list, ordered, groups, byId, units) && |list| == |ordered| == |groups|
    requires GroupsAre(groups, byId, units) && Sorted(Less, ordered)
    ensures IsCohort(ordered, byId, units) && !RepeatedSlot(byId, units)
    ensures StrictlySorted(OriginLess, list)
    ensures forall p :: p in list <==> IsRoundPlan(byId, units, p)
  {
    hide Parts, Less, Rounds, IsRoundPlan, RepeatedSlot, DistinctSlots, GroupsAre, StrictlySorted, SameId, IsCohort;
    IdsAreOrdered();
    NeighboursDecide(Less, SameId, ordered);
    EveryRoundIsListed(ordered, groups, byId, units);
    PlansAreTheRounds(ordered, list, byId, units);
  }

  lemma OrdersAreStrict()
    requires Orders(Less, SameId)
    ensures StrictOrder(Less)
  {
  }

  lemma GroupOf(groups: Groups, byId: Responses, units: seq<Unit>, round: Bytes)
    requires GroupsAre(groups, byId, units)
    ensures round in groups <==> round in Rounds(byId, units)
    ensures round in groups ==> groups[round] == Parts(byId, units, round) && Parts(byId, units, round) != []
  {
    hide Parts, Rounds;
    RoundsAreGroups(byId, units, round);
  }

  lemma CohortIgnoresOrder(cohort: seq<Bytes>, ordered: seq<Bytes>, byId: Responses, units: seq<Unit>)
    requires multiset(ordered) == multiset(cohort)
    ensures |ordered| == |cohort|
    ensures IsCohort(cohort, byId, units) <==> IsCohort(ordered, byId, units)
  {
    hide Rounds;
    SameMembers(ordered, cohort);
    DistinctIgnoresOrder(SameId, cohort, ordered);
    DistinctIgnoresOrder(SameId, ordered, cohort);
  }

  lemma NotACohort(ordered: seq<Bytes>, i: nat, byId: Responses, units: seq<Unit>)
    requires i < |ordered|
    ensures i > 0 && SameId(ordered[i - 1]) == SameId(ordered[i]) ==> !IsCohort(ordered, byId, units)
    ensures ordered[i] !in Rounds(byId, units) ==> !IsCohort(ordered, byId, units)
  {
    hide Rounds;
    assert ordered[i] in ordered;
  }

  /** As many distinct rounds as there are groups, all of them groups: every group. */
  lemma EveryRoundIsListed(ordered: seq<Bytes>, groups: Groups, byId: Responses, units: seq<Unit>)
    requires GroupsAre(groups, byId, units) && DistinctBy(SameId, ordered) && |ordered| == |groups|
    requires forall i :: 0 <= i < |ordered| ==> ordered[i] in groups && DistinctSlots(Parts(byId, units, ordered[i]))
    ensures forall round :: round in ordered <==> round in Rounds(byId, units)
    ensures IsCohort(ordered, byId, units) && !RepeatedSlot(byId, units)
  {
    hide Parts, Rounds, DistinctSlots, GroupsAre;
    Pigeonhole(SameId, ordered);
    assert KeySet(SameId, ordered) <= groups.Keys;
    assert |groups| == |groups.Keys|;
    SameSizeSubset(KeySet(SameId, ordered), groups.Keys);
    forall round
      ensures round in ordered <==> round in Rounds(byId, units)
      ensures !DistinctSlots(Parts(byId, units, round)) ==> round in groups
    {
      GroupOf(groups, byId, units, round);
      assert round in KeySet(SameId, ordered) <==> round in ordered;
      EmptyIsDistinct(groups, byId, units, round);
    }
  }

  lemma EmptyIsDistinct(groups: Groups, byId: Responses, units: seq<Unit>, round: Bytes)
    requires GroupsAre(groups, byId, units)
    ensures !DistinctSlots(Parts(byId, units, round)) ==> round in groups
  {
    hide Parts;
  }

  lemma PlansAreTheRounds(ordered: seq<Bytes>, list: seq<Plan>, byId: Responses, units: seq<Unit>)
    requires |list| == |ordered| && StrictlySorted(Less, ordered)
    requires forall j :: 0 <= j < |list| ==> list[j].origin == ordered[j] && IsRoundPlan(byId, units, list[j])
    requires forall round :: round in ordered <==> round in Rounds(byId, units)
    ensures StrictlySorted(OriginLess, list)
    ensures forall p :: p in list <==> IsRoundPlan(byId, units, p)
  {
    hide Parts, Rounds, Less, Sort;
    forall p | IsRoundPlan(byId, units, p) ensures p in list {
      RoundsAreGroups(byId, units, p.origin);
      var j :| 0 <= j < |ordered| && ordered[j] == p.origin;
      assert list[j] == p;
    }
  }

  /** Settles a fence of declined slots; the batch is the one the mixed handler defines. */
  method CommitNoProposal(w: Work, cohort: seq<Bytes>) returns (r: Option<Batch>)
    requires AllSlots(w.units)
    ensures r.Some? <==> Commits(w, cohort)
    ensures r.Some? ==> IsBatch(w, Lookup(w.responses), r.value)
  {
    hide UnitsFailure, Parts, Systems, Less, SystemOf, Rounds, RepeatedSlot, GroupsAre, DistinctBy, IsPlan, IsBatch,
         UniqueResponses, StrictlySorted, IsRoundPlan, Lookup, OriginOf;
    if w.state.instant != w.instant || w.state.revision != w.baseRevision || w.ordinal > MAX_I64
       || w.state.lastOrdinal >= w.ordinal || w.state.revision == MAX_U64 {
      return None;
    }
    var indexed := IndexResponses(w.responses);
    if indexed == None {
      return None;
    }
    var byId := indexed.value;
    var failure, groups, systems := Classify(w, byId);
    if failure.Some? || |w.units| == 0 {
      return None;
    }
    SizeOfCohort(cohort, groups, byId, w.units);
    if |cohort| != |groups| {
      return None;
    }
    var plans := PlanRounds(cohort, groups, byId, w.units);
    if plans == None || |plans.value| > MAX_U64 - w.state.nextLogicalSequence {
      return None;
    }
    OnlyRoundsArePlanned(w, byId);
    OriginsDiffer(plans.value);
    var b := Settle(w, byId, plans.value, plans.value);
    return Some(b);
  }

  lemma SizeOfCohort(cohort: seq<Bytes>, groups: Groups, byId: Responses, units: seq<Unit>)
    requires GroupsAre(groups, byId, units)
    ensures IsCohort(cohort, byId, units) ==> |cohort| == |groups|
  {
    hide Parts, Rounds, GroupsAre;
    if IsCohort(cohort, byId, units) {
      Pigeonhole(SameId, cohort);
      forall round ensures round in groups <==> round in cohort {
        GroupOf(groups, byId, units, round);
      }
      assert groups.Keys == KeySet(SameId, cohort);
      assert |groups| == |groups.Keys|;
    }
  }

  lemma OnlyRoundsArePlanned(w: Work, byId: Responses)
    requires AllSlots(w.units)
    ensures forall p :: IsPlan(w, byId, p) <==> IsRoundPlan(byId, w.units, p)
  {
    hide IsRoundPlan, Systems;
    SlotsAreNoSystems(w, w.units);
  }

  lemma OriginsDiffer(plans: seq<Plan>)
    requires StrictlySorted(OriginLess, plans)
    ensures DistinctBy(OriginOf, plans)
  {
    forall i, j | 0 <= i < j < |plans| ensures OriginOf(plans[i]) != OriginOf(plans[j]) {
      assert OriginLess(plans[i], plans[j]);
      LessIrreflexive(plans[i].origin);
    }
  }

  /** Nobody's silence is lost: every declined slot has a NO_PROPOSAL decision, is consumed by the
      one event of its round, and leaves no successor. */
  lemma SilenceIsRecorded(w: Work, cohort: seq<Bytes>, b: Batch)
    requires AllSlots(w.units) && Commits(w, cohort) && IsBatch(w, Lookup(w.responses), b)
    ensures |b.events| == |cohort|
    ensures forall i :: 0 <= i < |w.units| ==> b.decisions[i].id == w.units[i].id && b.decisions[i].disposition == NoProposal
    ensures b.successors == []
    ensures forall u :: u in w.units ==> exists e :: e in b.events && P.Consumes(Lookup(w.responses), e, u)
  {
    hide UnitsFailure, Parts, Systems, Rounds, P.Consumes, RepeatedSlot, UniqueResponses;
    var byId := Lookup(w.responses);
    forall i | 0 <= i < |w.units| ensures w.units[i].kind == 0 {
      assert w.units[i] in w.units;
    }
    NoSuccessors(b.decisions);
    forall u | u in w.units ensures exists e :: e in b.events && P.Consumes(byId, e, u) {
      P.EveryUnitIsConsumed(w, byId, b.events, u);
    }
    OnePlanEach(w, cohort, byId, b.events);
  }

  lemma {:induction false} NoSuccessors(decisions: seq<Decision>)
    requires forall i :: 0 <= i < |decisions| ==> decisions[i].successor == None
    ensures Successors(decisions) == []
  {
    if decisions != [] {
      NoSuccessors(decisions[..|decisions| - 1]);
    }
  }

  lemma OnePlanEach(w: Work, cohort: seq<Bytes>, byId: Responses, events: seq<Event>)
    requires AllSlots(w.units) && IsCohort(cohort, byId, w.units) && IsEventList(w, byId, events)
    ensures |events| == |cohort|
  {
    hide Parts, Systems, Rounds, Less;
    OnlyRoundsArePlanned(w, byId);
    var plans := Plans(events);
    OriginsDiffer(plans);
    Pigeonhole(OriginOf, plans);
    Pigeonhole(SameId, cohort);
    forall round ensures round in KeySet(OriginOf, plans) <==> round in KeySet(SameId, cohort) {
      RoundsAreGroups(byId, w.units, round);
      if round in cohort {
        var p := Plan(round, Round(Sort(SlotLess, Parts(byId, w.units, round))));
        assert p in plans && OriginOf(p) == round;
      }
    }
    assert KeySet(OriginOf, plans) == KeySet(SameId, cohort);
  }
}

/** The batch a clock advance commits: two temporal events, then the trigger transitions in the
    order of their definitions, then the new activations in the order of their identities. */
module AdvanceBatch {
  import opened Bytes
  import opened Domain
  import opened Sorting
  import Clock

  /** What evaluating a trigger at the new instant gives; an activation if it fired. */
  datatype Evaluation = Refused | Evaluated(before: Bytes, after: Bytes, activation: Option<Bytes>)

  datatype Trigger = Trigger(definition: Bytes, evaluation: Evaluation)

  datatype Content =
    | ClockAdvanced
    | BodyAdvanced
    | TriggerChanged(definition: Bytes, before: Bytes, after: Bytes)
    | Activated(activation: Bytes)

  datatype Event = Event(content: Content, sequence: U64)

  datatype Batch = Batch(clock: Clock.State, events: seq<Event>, activations: seq<Bytes>)

  predicate DefinitionLess(a: Trigger, b: Trigger) {
    Less(a.definition, b.definition)
  }

  function DefinitionOf(t: Trigger): Bytes {
    t.definition
  }

  function Changes(ordered: seq<Trigger>): seq<Content> {
    if ordered == [] then []
    else
      var t := ordered[|ordered| - 1];
      Changes(ordered[..|ordered| - 1])
      + if t.evaluation.Evaluated? then [TriggerChanged(t.definition, t.evaluation.before, t.evaluation.after)] else []
  }

  function Fired(ordered: seq<Trigger>): seq<Bytes> {
    if ordered == [] then []
    else
      var t := ordered[|ordered| - 1];
      Fired(ordered[..|ordered| - 1])
      + if t.evaluation.Evaluated? && t.evaluation.activation.Some? then [t.evaluation.activation.value] else []
  }

  function Activations(ids: seq<Bytes>): (r: seq<Content>)
    ensures |r| == |ids|
  {
    seq(|ids|, i requires 0 <= i < |ids| => Activated(ids[i]))
  }

  /** Everything the advance publishes, in order. */
  function Contents(triggers: seq<Trigger>): seq<Content> {
    var ordered := Sort(DefinitionLess, triggers);
    [ClockAdvanced, BodyAdvanced] + Changes(ordered) + Activations(Sort(Less, Fired(ordered)))
  }

  ghost predicate AllEvaluated(triggers: seq<Trigger>) {
    forall t :: t in triggers ==> t.evaluation.Evaluated?
  }

  /** An invalid plan, a repeated definition or a trigger that cannot be evaluated: whichever
      is met first, there is no batch. */
  ghost function Failure(state: Clock.State, plan: Clock.Plan, triggers: seq<Trigger>): bool {
    Clock.ApplyAdvance(state, plan).Err? || !DistinctBy(DefinitionOf, triggers) || !AllEvaluated(triggers)
  }

  /** The events carry the contents, numbered upwards from `base`. */
  ghost predicate Numbers(events: seq<Event>, contents: seq<Content>, base: U64) {
    && |events| == |contents|
    && forall i :: 0 <= i < |events| ==> events[i] == Event(contents[i], (base + i) % TWO_TO_64)
  }

  /** Sequence numbers follow the clock's next one, as `uint64` arithmetic adds. */
  ghost predicate IsBatch(state: Clock.State, plan: Clock.Plan, triggers: seq<Trigger>, b: Batch) {
    && Clock.ApplyAdvance(state, plan).Ok?
    && Numbers(b.events, Contents(triggers), state.nextLogicalSequence)
    && b.activations == Sort(Less, Fired(Sort(DefinitionLess, triggers)))
    && b.clock == Clock.ApplyAdvance(state, plan).value.(
                    nextLogicalSequence := (state.nextLogicalSequence + |b.events|) % TWO_TO_64)
  }

  lemma OrdersByDefinition()
    ensures Orders(DefinitionLess, DefinitionOf)
    ensures StrictOrder(Less) && forall a, b :: Less(a, b) || a == b || Less(b, a)
  {
    forall a ensures !Less(a, a) {
      LessIrreflexive(a);
    }
    forall a, b, c | Less(a, b) && Less(b, c) ensures Less(a, c) {
      LessTransitive(a, b, c);
    }
    forall a, b ensures Less(a, b) || a == b || Less(b, a) {
      LessTotal(a, b);
    }
  }

  // ----- building it -----

  /** Evaluates the sorted triggers in turn; two with the same definition are neighbours. */
  method EvaluateOrdered(ordered: seq<Trigger>) returns (ok: bool, changes: seq<Content>, activations: seq<Bytes>)
    requires Orders(DefinitionLess, DefinitionOf) && Sorted(DefinitionLess, ordered)
    ensures ok <==> DistinctBy(DefinitionOf, ordered) && AllEvaluated(ordered)
    ensures ok ==> changes == Changes(ordered) && activations == Fired(ordered)
  {
    hide Changes, Fired, DefinitionOf, DefinitionLess, Orders, Sorted;
    changes, activations := [], [];
    NothingEvaluated();
    assert ordered[..0] == [];
    for i := 0 to |ordered|
      invariant forall j :: 0 < j < i ==> DefinitionOf(ordered[j - 1]) != DefinitionOf(ordered[j])
      invariant forall j :: 0 <= j < i ==> ordered[j].evaluation.Evaluated?
      invariant changes == Changes(ordered[..i]) && activations == Fired(ordered[..i])
    {
      if i > 0 && DefinitionOf(ordered[i]) == DefinitionOf(ordered[i - 1]) {
        return false, changes, activations;
      }
      var t := ordered[i];
      if t.evaluation.Refused? {
        assert t in ordered;
        return false, changes, activations;
      }
      EvaluateOneMore(ordered, i);
      changes := changes + [TriggerChanged(t.definition, t.evaluation.before, t.evaluation.after)];
      if t.evaluation.activation.Some? {
        activations := activations + [t.evaluation.activation.value];
      }
    }
    assert ordered[..|ordered|] == ordered;
    NeighboursDecide(DefinitionLess, DefinitionOf, ordered);
    ok := true;
  }

  /** Sorts the registered triggers and evaluates them. */
  method EvaluateAll(triggers: seq<Trigger>) returns (ok: bool, changes: seq<Content>, activations: seq<Bytes>)
    ensures ok <==> DistinctBy(DefinitionOf, triggers) && AllEvaluated(triggers)
    ensures ok ==> changes == Changes(Sort(DefinitionLess, triggers))
    ensures ok ==> activations == Fired(Sort(DefinitionLess, triggers))
  {
    hide Less, DefinitionLess, DefinitionOf, Changes, Fired, Sort;
    OrdersByDefinition();
    var ordered := SortSlice(DefinitionLess, triggers);
    SameMembers(ordered, triggers);
    DistinctIgnoresOrder(DefinitionOf, triggers, ordered);
    DistinctIgnoresOrder(DefinitionOf, ordered, triggers);
    ok, changes, activations := EvaluateOrdered(ordered);
    if ok {
      DistinctIsTotal(DefinitionLess, DefinitionOf, triggers);
      SortedIsSort(DefinitionLess, triggers, ordered);
    }
  }

  lemma NothingEvaluated()
    ensures Changes([]) == [] && Fired([]) == []
  {
  }

  lemma EvaluateOneMore(ordered: seq<Trigger>, i: nat)
    requires i < |ordered| && ordered[i].evaluation.Evaluated?
    ensures var e := ordered[i].evaluation;
            && Changes(ordered[..i + 1]) == Changes(ordered[..i]) + [TriggerChanged(ordered[i].definition, e.before, e.after)]
            && Fired(ordered[..i + 1]) == Fired(ordered[..i]) + if e.activation.Some? then [e.activation.value] else []
  {
    assert ordered[..i + 1][..i] == ordered[..i];
  }

  /** Appends one event for each content, counting the sequence up as it goes. */
  method Append(events: seq<Event>, more: seq<Content>, start: U64, ghost contents: seq<Content>, ghost base: U64)
    returns (all: seq<Event>, sequence: U64)
    requires Numbers(events, contents, base) && start == (base + |events|) % TWO_TO_64
    ensures Numbers(all, contents + more, base) && sequence == (base + |all|) % TWO_TO_64
  {
    all, sequence := events, start;
    for i := 0 to |more|
      invariant Numbers(all, contents + more[..i], base)
      invariant sequence == (base + |all|) % TWO_TO_64
    {
      all := all + [Event(more[i], sequence)];
      WrapsOnce(base, |all| - 1);
      sequence := (sequence + 1) % TWO_TO_64;
    }
    assert more[..|more|] == more;
  }

  lemma WrapsOnce(base: int, n: int)
    ensures ((base + n) % TWO_TO_64 + 1) % TWO_TO_64 == (base + n + 1) % TWO_TO_64
  {
  }

  lemma NumbersNothing(base: U64)
    ensures Numbers([], [], base)
  {
  }

  method BuildAdvance(state: Clock.State, plan: Clock.Plan, triggers: seq<Trigger>) returns (r: Option<Batch>)
    ensures r == None <==> Failure(state, plan, triggers)
    ensures r.Some? ==> IsBatch(state, plan, triggers, r.value)
  {
    hide Less, Changes, Fired, Sort, DistinctBy, AllEvaluated, Numbers;
    NumbersNothing(state.nextLogicalSequence);
    var next := Clock.ApplyAdvance(state, plan);
    if next.Err? {
      return None;
    }
    var base := state.nextLogicalSequence;
    var events, sequence := Append([], [ClockAdvanced, BodyAdvanced], base, [], base);
    var ok, changes, fired := EvaluateAll(triggers);
    if !ok {
      return None;
    }
    ghost var temporal := [] + [ClockAdvanced, BodyAdvanced];
    events, sequence := Append(events, changes, sequence, temporal, base);
    OrdersByDefinition();
    var activations := SortSlice(Less, fired);
    SortedIsSort(Less, fired, activations);
    events, sequence := Append(events, Activations(activations), sequence, temporal + changes, base);
    assert temporal == [ClockAdvanced, BodyAdvanced];
    return Some(Batch(next.value.(nextLogicalSequence := sequence), events, activations));
  }

  // ----- what the batch says -----

  lemma {:induction false} EveryTriggerChangesOnce(ordered: seq<Trigger>)
    requires AllEvaluated(ordered)
    ensures |Changes(ordered)| == |ordered|
    ensures forall i :: 0 <= i < |ordered| ==>
              Changes(ordered)[i]
              == TriggerChanged(ordered[i].definition, ordered[i].evaluation.before, ordered[i].evaluation.after)
    ensures forall id :: id in Fired(ordered) <==> exists t :: t in ordered && t.evaluation.activation == Some(id)
  {
    if ordered != [] {
      var init, last := ordered[..|ordered| - 1], ordered[|ordered| - 1];
      assert ordered == init + [last];
      EveryTriggerChangesOnce(init);
      assert last in ordered;
    }
  }

  /** The batch does not depend on the order in which the store lists the triggers. */
  lemma AdvanceIgnoresOrder(state: Clock.State, plan: Clock.Plan, a: seq<Trigger>, b: seq<Trigger>, x: Batch, y: Batch)
    requires multiset(a) == multiset(b)
    ensures Failure(state, plan, a) == Failure(state, plan, b)
    ensures !Failure(state, plan, a) && IsBatch(state, plan, a, x) && IsBatch(state, plan, b, y) ==> x == y
  {
    hide Less, Sort, DefinitionLess, Changes, Fired;
    SameMembers(a, b);
    DistinctIgnoresOrder(DefinitionOf, a, b);
    DistinctIgnoresOrder(DefinitionOf, b, a);
    if !Failure(state, plan, a) {
      OrdersByDefinition();
      DistinctIsTotal(DefinitionLess, DefinitionOf, a);
      SortPermutation(DefinitionLess, a, b);
    }
  }

  /** The advance itself never refuses a sequence about to overflow: whatever the triggers are, its
      events are numbered upwards exactly while the numbers fit into 64 bits, and the clock's next
      number falls back exactly when it would be 2^64 or more. */
  lemma AdvanceMayWrap(state: Clock.State, plan: Clock.Plan, triggers: seq<Trigger>, b: Batch)
    requires IsBatch(state, plan, triggers, b)
    ensures var n := state.nextLogicalSequence + |b.events|;
            && |b.events| >= 2
            && ((forall i, j :: 0 <= i < j < |b.events| ==> b.events[i].sequence < b.events[j].sequence) <==> n <= TWO_TO_64)
            && (b.clock.nextLogicalSequence == n <==> n < TWO_TO_64)
  {
    hide Sort, Changes, Fired, Less;
    var base, last := state.nextLogicalSequence, |b.events| - 1;
    assert |b.events| == |Contents(triggers)| >= 2;
    if base + |b.events| > TWO_TO_64 {
      var zero := TWO_TO_64 - base;
      assert b.events[0].sequence == base && b.events[zero].sequence == (base + zero) % TWO_TO_64 == 0;
    } else {
      forall i | 0 <= i < |b.events| ensures b.events[i].sequence == base + i {
      }
    }
  }
}

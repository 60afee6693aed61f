/** The admission fence: the deterministic cut of the input ledger before a cycle. */
module Fence {
  import opened Bytes
  import opened Domain
  import opened Sorting

  // ----- what the ledger shows -----

  /** `authentic` stands for the outcome of a record's identity, digest and canonical-byte
      checks, which need the policy bundle. */
  datatype Input = Input(id: Bytes, digest: Bytes, source: Bytes, sequence: nat, eligibility: Coordinate, authentic: bool)

  datatype Closure = Closure(id: Bytes, digest: Bytes, source: Bytes, sequence: nat,
                             closedThrough: Coordinate, final: bool, authentic: bool)

  datatype Round = Round(id: Bytes, source: Bytes, slots: seq<Bytes>, eligibility: Coordinate,
                         lifecycle: nat, authentic: bool)

  datatype Response = Response(id: Bytes, digest: Bytes, kind: nat, run: Bytes, cycle: Bytes,
                               effectiveAt: I64, revision: U64, authentic: bool)

  datatype View = View(sources: seq<Bytes>, inputs: seq<Input>, closures: seq<Closure>, rounds: seq<Round>,
                       slots: map<Bytes, map<Bytes, Response>>, run: Bytes)

  datatype CyclePlan = Work | Advance(from: I64, to: I64, target: Coordinate)

  /** `details` is what the fence copies through unread: attempt, retry reference, state
      hash and policies. */
  datatype Cycle = Cycle(id: Bytes, plan: CyclePlan, instant: I64, ordinal: U64, baseRevision: U64, details: Bytes)

  // ----- what the fence says -----

  datatype Proof = Proof(source: Bytes, closureId: Bytes, closureDigest: Bytes, sequence: nat,
                         closedThrough: Coordinate, final: bool)

  datatype CohortSlot = CohortSlot(slot: Bytes, refKind: nat, id: Bytes, digest: Bytes)

  datatype CohortRound = CohortRound(id: Bytes, slots: seq<CohortSlot>)

  datatype Unit = Unit(eligibility: Coordinate, kind: nat, source: Bytes, id: Bytes, digest: Bytes)

  /** Identities and digests of the fence are functions of these fields. */
  datatype Fields = Fields(run: Bytes, cycle: Cycle, proofs: seq<Proof>, cohort: seq<CohortRound>, units: seq<Unit>)

  datatype Error =
    | NotAuthentic
    | InvalidPlan
    | WaitingForClosure(source: Bytes)
    | WaitingForSlot(round: Bytes, slot: Bytes)
    | ResponseMismatch(round: Bytes, slot: Bytes)
    | InvalidSystemUnit
    | AdvanceNotEmpty

  // ----- the orders -----

  /** Eligibility, kind, source, digest, identity. */
  predicate UnitLess(u: Unit, v: Unit) {
    var c := Compare(u.eligibility, v.eligibility);
    if c != 0 then c < 0
    else if u.kind != v.kind then u.kind < v.kind
    else if u.source != v.source then Less(u.source, v.source)
    else if u.digest != v.digest then Less(u.digest, v.digest)
    else Less(u.id, v.id)
  }

  predicate RoundLess(a: Round, b: Round) {
    Less(a.id, b.id)
  }

  lemma UnitLessIsTotal()
    ensures StrictOrder(UnitLess)
    ensures forall u, v :: UnitLess(u, v) || u == v || UnitLess(v, u)
  {
    forall u ensures !UnitLess(u, u) {
      LessIrreflexive(u.id);
    }
    forall u, v, w | UnitLess(u, v) && UnitLess(v, w) ensures UnitLess(u, w) {
      UnitLessTransitive(u, v, w);
    }
    forall u, v ensures UnitLess(u, v) || u == v || UnitLess(v, u) {
      LessTotal(u.source, v.source);
      LessTotal(u.digest, v.digest);
      LessTotal(u.id, v.id);
    }
  }

  lemma LessChain(a: Bytes, b: Bytes, c: Bytes)
    ensures Less(a, b) && Less(b, c) ==> Less(a, c) && a != c
  {
    if Less(a, b) && Less(b, c) {
      LessTransitive(a, b, c);
      LessIrreflexive(a);
    }
  }

  lemma UnitLessTransitive(u: Unit, v: Unit, w: Unit)
    requires UnitLess(u, v) && UnitLess(v, w)
    ensures UnitLess(u, w)
  {
    LessChain(u.source, v.source, w.source);
    LessChain(u.digest, v.digest, w.digest);
    LessChain(u.id, v.id, w.id);
  }

  lemma RoundLessIsStrict()
    ensures StrictOrder(RoundLess)
  {
    forall a: Round ensures !RoundLess(a, a) {
      LessIrreflexive(a.id);
    }
    forall a: Round, b: Round, c: Round | RoundLess(a, b) && RoundLess(b, c) ensures RoundLess(a, c) {
      LessTransitive(a.id, b.id, c.id);
    }
  }

  // ----- the derivation -----

  function At(cycle: Cycle): Coordinate {
    Coordinate(cycle.instant, cycle.ordinal)
  }

  /** Sources must be closed through the cycle, or through the target of an advance. */
  function ClosureAt(cycle: Cycle): Coordinate {
    if cycle.plan.Work? then At(cycle) else cycle.plan.target
  }

  predicate PlanIsValid(cycle: Cycle) {
    cycle.plan.Advance? ==>
      && cycle.plan.from == cycle.instant
      && cycle.plan.to > cycle.plan.from
      && cycle.plan.target.instant == cycle.plan.to
  }

  predicate Covers(c: Closure, source: Bytes, at: Coordinate) {
    c.source == source && (c.final || Compare(c.closedThrough, at) >= 0)
  }

  /** The covering closure with the least sequence number; on a tie, the earlier in the list. */
  function SelectClosure(closures: seq<Closure>, source: Bytes, at: Coordinate): Option<Closure> {
    if closures == [] then None
    else
      var c := closures[|closures| - 1];
      var selected := SelectClosure(closures[..|closures| - 1], source, at);
      if Covers(c, source, at) && (selected == None || c.sequence < selected.value.sequence) then Some(c) else selected
  }

  function ProofOf(source: Bytes, c: Closure): Proof {
    Proof(source, c.id, c.digest, c.sequence, c.closedThrough, c.final)
  }

  function Proofs(sources: seq<Bytes>, closures: seq<Closure>, at: Coordinate): Result<seq<Proof>, Error> {
    if sources == [] then Ok([])
    else
      match Proofs(sources[..|sources| - 1], closures, at)
      case Err(e) => Err(e)
      case Ok(proofs) =>
        var source := sources[|sources| - 1];
        match SelectClosure(closures, source, at)
        case None => Err(WaitingForClosure(source))
        case Some(c) => Ok(proofs + [ProofOf(source, c)])
  }

  function EligibleRounds(rounds: seq<Round>, at: Coordinate): (r: seq<Round>)
    ensures forall x :: x in r <==> x in rounds && x.lifecycle == 0 && Compare(x.eligibility, at) <= 0
  {
    if rounds == [] then []
    else
      assert rounds == rounds[..|rounds| - 1] + [rounds[|rounds| - 1]];
      var round := rounds[|rounds| - 1];
      EligibleRounds(rounds[..|rounds| - 1], at)
      + if round.lifecycle == 0 && Compare(round.eligibility, at) <= 0 then [round] else []
  }

  /** The response a slot contributes, once it is there and belongs to this cycle. */
  function SlotResponse(view: View, cycle: Cycle, round: Round, slot: Bytes): Result<Response, Error> {
    var responses := if round.id in view.slots then view.slots[round.id] else map[];
    if slot !in responses then Err(WaitingForSlot(round.id, slot))
    else
      var r := responses[slot];
      if r.run != view.run || r.cycle != cycle.id || r.effectiveAt != cycle.instant || r.revision != cycle.baseRevision
      then Err(ResponseMismatch(round.id, slot))
      else Ok(r)
  }

  function CohortSlotOf(slot: Bytes, r: Response): CohortSlot {
    CohortSlot(slot, if r.kind == 1 then 23 else 5, r.id, r.digest)
  }

  function SlotUnit(round: Round, r: Response): Unit {
    Unit(round.eligibility, 0, round.source, r.id, r.digest)
  }

  datatype Admitted = Admitted(slots: seq<CohortSlot>, units: seq<Unit>)

  function RoundSlots(view: View, cycle: Cycle, round: Round, slots: seq<Bytes>): Result<Admitted, Error> {
    if slots == [] then Ok(Admitted([], []))
    else
      match RoundSlots(view, cycle, round, slots[..|slots| - 1])
      case Err(e) => Err(e)
      case Ok(a) =>
        var slot := slots[|slots| - 1];
        match SlotResponse(view, cycle, round, slot)
        case Err(e) => Err(e)
        case Ok(r) => Ok(Admitted(a.slots + [CohortSlotOf(slot, r)], a.units + [SlotUnit(round, r)]))
  }

  datatype Cohort = Cohort(rounds: seq<CohortRound>, units: seq<Unit>)

  function CohortOf(view: View, cycle: Cycle, rounds: seq<Round>): Result<Cohort, Error> {
    if rounds == [] then Ok(Cohort([], []))
    else
      match CohortOf(view, cycle, rounds[..|rounds| - 1])
      case Err(e) => Err(e)
      case Ok(cohort) =>
        var round := rounds[|rounds| - 1];
        match RoundSlots(view, cycle, round, round.slots)
        case Err(e) => Err(e)
        case Ok(a) => Ok(Cohort(cohort.rounds + [CohortRound(round.id, a.slots)], cohort.units + a.units))
  }

  function InputUnit(i: Input): Unit {
    Unit(i.eligibility, 1, i.source, i.id, i.digest)
  }

  function InputUnits(inputs: seq<Input>, at: Coordinate): seq<Unit> {
    if inputs == [] then []
    else
      var i := inputs[|inputs| - 1];
      InputUnits(inputs[..|inputs| - 1], at) + if Compare(i.eligibility, at) <= 0 then [InputUnit(i)] else []
  }

  predicate SystemUnitIsValid(u: Unit, at: Coordinate) {
    (u.kind == 2 || u.kind == 3) && Compare(u.eligibility, at) <= 0
  }

  predicate AllAuthentic(view: View) {
    && (forall i :: i in view.inputs ==> i.authentic)
    && (forall c :: c in view.closures ==> c.authentic)
    && (forall r :: r in view.rounds ==> r.authentic)
    && (forall id :: id in view.slots ==> forall slot :: slot in view.slots[id] ==> view.slots[id][slot].authentic)
  }

  /** `system` are the schedule and trigger units the ledger reports at the cycle. */
  function Derive(view: View, system: seq<Unit>, cycle: Cycle): Result<Fields, Error> {
    if !AllAuthentic(view) then Err(NotAuthentic)
    else if !PlanIsValid(cycle) then Err(InvalidPlan)
    else
      match Proofs(view.sources, view.closures, ClosureAt(cycle))
      case Err(e) => Err(e)
      case Ok(proofs) =>
        match CohortOf(view, cycle, Sort(RoundLess, EligibleRounds(view.rounds, At(cycle))))
        case Err(e) => Err(e)
        case Ok(cohort) =>
          if exists u :: u in system && !SystemUnitIsValid(u, At(cycle)) then Err(InvalidSystemUnit)
          else
            var units := Sort(UnitLess, cohort.units + InputUnits(view.inputs, At(cycle)) + system);
            if cycle.plan.Advance? && units != [] then Err(AdvanceNotEmpty)
            else Ok(Fields(view.run, cycle, proofs, cohort.rounds, units))
  }

  // ----- the same, step by step -----

  /** Rounds come out of a map keyed by identity. */
  ghost predicate DistinctRounds(rounds: seq<Round>) {
    forall i, j :: 0 <= i < j < |rounds| ==> rounds[i].id != rounds[j].id
  }

  lemma RoundsAreTotal(rounds: seq<Round>)
    requires DistinctRounds(rounds)
    ensures TotalOn(RoundLess, rounds)
  {
    forall x, y | x in rounds && y in rounds && !RoundLess(x, y) && !RoundLess(y, x) ensures x == y {
      LessTotal(x.id, y.id);
    }
  }

  method FindClosure(closures: seq<Closure>, source: Bytes, at: Coordinate) returns (selected: Option<Closure>)
    ensures selected == SelectClosure(closures, source, at)
  {
    selected := None;
    for i := 0 to |closures|
      invariant selected == SelectClosure(closures[..i], source, at)
    {
      var c := closures[i];
      assert closures[..i + 1][..i] == closures[..i];
      if c.source == source && (c.final || Compare(c.closedThrough, at) >= 0) {
        if selected == None || c.sequence < selected.value.sequence {
          selected := Some(c);
        }
      }
    }
    assert closures[..|closures|] == closures;
  }

  method CollectProofs(view: View, at: Coordinate) returns (r: Result<seq<Proof>, Error>)
    ensures r == Proofs(view.sources, view.closures, at)
  {
    var proofs := [];
    for i := 0 to |view.sources|
      invariant Proofs(view.sources[..i], view.closures, at) == Ok(proofs)
    {
      assert view.sources[..i + 1][..i] == view.sources[..i];
      var selected := FindClosure(view.closures, view.sources[i], at);
      if selected == None {
        ProofsFailEarly(view.sources, view.closures, at, i + 1);
        return Err(WaitingForClosure(view.sources[i]));
      }
      proofs := proofs + [ProofOf(view.sources[i], selected.value)];
    }
    assert view.sources[..|view.sources|] == view.sources;
    return Ok(proofs);
  }

  /** The first source without a covering closure decides the error. */
  lemma {:induction false} ProofsFailEarly(sources: seq<Bytes>, closures: seq<Closure>, at: Coordinate, n: nat)
    requires n <= |sources| && Proofs(sources[..n], closures, at).Err?
    ensures Proofs(sources, closures, at) == Proofs(sources[..n], closures, at)
  {
    if n < |sources| {
      var init := sources[..|sources| - 1];
      assert init[..n] == sources[..n];
      ProofsFailEarly(init, closures, at, n);
    } else {
      assert sources[..n] == sources;
    }
  }

  method AdmitRound(view: View, cycle: Cycle, round: Round) returns (r: Result<Admitted, Error>)
    ensures r == RoundSlots(view, cycle, round, round.slots)
  {
    var responses := if round.id in view.slots then view.slots[round.id] else map[];
    var slots, units := [], [];
    for i := 0 to |round.slots|
      invariant RoundSlots(view, cycle, round, round.slots[..i]) == Ok(Admitted(slots, units))
    {
      var slot := round.slots[i];
      assert round.slots[..i + 1][..i] == round.slots[..i];
      if slot !in responses {
        SlotsFailEarly(view, cycle, round, round.slots, i + 1);
        return Err(WaitingForSlot(round.id, slot));
      }
      var response := responses[slot];
      if response.run != view.run || response.cycle != cycle.id || response.effectiveAt != cycle.instant
         || response.revision != cycle.baseRevision {
        SlotsFailEarly(view, cycle, round, round.slots, i + 1);
        return Err(ResponseMismatch(round.id, slot));
      }
      slots := slots + [CohortSlotOf(slot, response)];
      units := units + [SlotUnit(round, response)];
    }
    assert round.slots[..|round.slots|] == round.slots;
    return Ok(Admitted(slots, units));
  }

  lemma {:induction false} SlotsFailEarly(view: View, cycle: Cycle, round: Round, slots: seq<Bytes>, n: nat)
    requires n <= |slots| && RoundSlots(view, cycle, round, slots[..n]).Err?
    ensures RoundSlots(view, cycle, round, slots) == RoundSlots(view, cycle, round, slots[..n])
  {
    if n < |slots| {
      var init := slots[..|slots| - 1];
      assert init[..n] == slots[..n];
      SlotsFailEarly(view, cycle, round, init, n);
    } else {
      assert slots[..n] == slots;
    }
  }

  method AdmitRounds(view: View, cycle: Cycle, rounds: seq<Round>) returns (r: Result<Cohort, Error>)
    ensures r == CohortOf(view, cycle, rounds)
  {
    var cohort, units := [], [];
    for i := 0 to |rounds|
      invariant CohortOf(view, cycle, rounds[..i]) == Ok(Cohort(cohort, units))
    {
      assert rounds[..i + 1][..i] == rounds[..i];
      var admitted := AdmitRound(view, cycle, rounds[i]);
      if admitted.Err? {
        CohortFailsEarly(view, cycle, rounds, i + 1);
        return Err(admitted.error);
      }
      cohort := cohort + [CohortRound(rounds[i].id, admitted.value.slots)];
      units := units + admitted.value.units;
    }
    assert rounds[..|rounds|] == rounds;
    return Ok(Cohort(cohort, units));
  }

  lemma {:induction false} CohortFailsEarly(view: View, cycle: Cycle, rounds: seq<Round>, n: nat)
    requires n <= |rounds| && CohortOf(view, cycle, rounds[..n]).Err?
    ensures CohortOf(view, cycle, rounds) == CohortOf(view, cycle, rounds[..n])
  {
    if n < |rounds| {
      var init := rounds[..|rounds| - 1];
      assert init[..n] == rounds[..n];
      CohortFailsEarly(view, cycle, init, n);
    } else {
      assert rounds[..n] == rounds;
    }
  }

  method SortedEligibleRounds(rounds: seq<Round>, at: Coordinate) returns (r: seq<Round>)
    requires DistinctRounds(rounds)
    ensures r == Sort(RoundLess, EligibleRounds(rounds, at))
  {
    var eligible: seq<Round> := [];
    for i := 0 to |rounds|
      invariant eligible == EligibleRounds(rounds[..i], at)
    {
      assert rounds[..i + 1][..i] == rounds[..i];
      if rounds[i].lifecycle == 0 && Compare(rounds[i].eligibility, at) <= 0 {
        eligible := eligible + [rounds[i]];
      }
    }
    assert rounds[..|rounds|] == rounds;
    RoundsAreTotal(rounds);
    RoundLessIsStrict();
    r := SortSlice(RoundLess, eligible);
    SortedIsSort(RoundLess, eligible, r);
  }

  method SortUnits(units: seq<Unit>) returns (r: seq<Unit>)
    ensures r == Sort(UnitLess, units)
  {
    UnitLessIsTotal();
    r := SortSlice(UnitLess, units);
    SortedIsSort(UnitLess, units, r);
  }

  method WithInputs(slotUnits: seq<Unit>, inputs: seq<Input>, at: Coordinate) returns (units: seq<Unit>)
    ensures units == slotUnits + InputUnits(inputs, at)
  {
    units := slotUnits;
    for i := 0 to |inputs|
      invariant units == slotUnits + InputUnits(inputs[..i], at)
    {
      assert inputs[..i + 1][..i] == inputs[..i];
      if Compare(inputs[i].eligibility, at) <= 0 {
        units := units + [InputUnit(inputs[i])];
      }
    }
    assert inputs[..|inputs|] == inputs;
  }

  method WithSystem(before: seq<Unit>, system: seq<Unit>, at: Coordinate) returns (r: Result<seq<Unit>, Error>)
    ensures r == if exists u :: u in system && !SystemUnitIsValid(u, at) then Err(InvalidSystemUnit) else Ok(before + system)
  {
    var units := before;
    for i := 0 to |system|
      invariant units == before + system[..i]
      invariant forall j :: 0 <= j < i ==> SystemUnitIsValid(system[j], at)
    {
      var u := system[i];
      assert u in system;
      if u.kind != 2 && u.kind != 3 {
        return Err(InvalidSystemUnit);
      }
      if Compare(u.eligibility, at) > 0 {
        return Err(InvalidSystemUnit);
      }
      units := units + [u];
    }
    assert system[..|system|] == system;
    return Ok(units);
  }

  method SortedUnits(slotUnits: seq<Unit>, inputs: seq<Input>, system: seq<Unit>, at: Coordinate)
    returns (r: Result<seq<Unit>, Error>)
    ensures r == (if exists u :: u in system && !SystemUnitIsValid(u, at) then Err(InvalidSystemUnit)
                  else Ok(Sort(UnitLess, slotUnits + InputUnits(inputs, at) + system)))
  {
    hide InputUnits, SystemUnitIsValid, Sort;
    var units := WithInputs(slotUnits, inputs, at);
    var all := WithSystem(units, system, at);
    if all.Err? {
      return Err(all.error);
    }
    var sorted := SortUnits(all.value);
    return Ok(sorted);
  }

  /** The derivation with its loops and its two sorts. Whatever order `sort.Slice` leaves
      equal elements in, the result is the one `Derive` gives. */
  method DeriveFence(view: View, system: seq<Unit>, cycle: Cycle) returns (r: Result<Fields, Error>)
    requires DistinctRounds(view.rounds)
    ensures r == Derive(view, system, cycle)
  {
    if !AllAuthentic(view) {
      return Err(NotAuthentic);
    }
    var closureAt := At(cycle);
    if cycle.plan.Advance? {
      if cycle.plan.from != cycle.instant || cycle.plan.to <= cycle.plan.from || cycle.plan.target.instant != cycle.plan.to {
        return Err(InvalidPlan);
      }
      closureAt := cycle.plan.target;
    }
    var proofs := CollectProofs(view, closureAt);
    if proofs.Err? {
      return Err(proofs.error);
    }
    var rounds := SortedEligibleRounds(view.rounds, At(cycle));
    var cohort := AdmitRounds(view, cycle, rounds);
    if cohort.Err? {
      return Err(cohort.error);
    }
    var units := SortedUnits(cohort.value.units, view.inputs, system, At(cycle));
    if units.Err? {
      return Err(units.error);
    }
    if cycle.plan.Advance? && |units.value| > 0 {
      return Err(AdvanceNotEmpty);
    }
    return Ok(Fields(view.run, cycle, proofs.value, cohort.value.rounds, units.value));
  }

  /** A persisted fence is accepted only when the ledger still derives it. */
  method VerifyFence(view: View, system: seq<Unit>, cycle: Cycle, candidate: Fields) returns (accepted: bool)
    requires DistinctRounds(view.rounds)
    ensures accepted <==> Derive(view, system, cycle) == Ok(candidate)
  {
    var derived := DeriveFence(view, system, cycle);
    accepted := derived == Ok(candidate);
  }
}

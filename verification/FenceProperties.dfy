/** Why a fence can be frozen: it does not depend on the order the ledger lists things in,
    and later arrivals cannot change it. */
module FenceProperties {
  import opened Bytes
  import opened Domain
  import opened Sorting
  import opened Fence

  // ----- the selected closure -----

  ghost predicate UniqueSequences(closures: seq<Closure>) {
    forall c, d :: c in closures && d in closures && c.source == d.source && c.sequence == d.sequence ==> c == d
  }

  /** The selection is a covering closure, and none covering comes before it. */
  lemma {:induction false} SelectMeaning(closures: seq<Closure>, source: Bytes, at: Coordinate)
    ensures SelectClosure(closures, source, at) == None ==> forall c :: c in closures ==> !Covers(c, source, at)
    ensures SelectClosure(closures, source, at).Some? ==>
              var s := SelectClosure(closures, source, at).value;
              && s in closures && Covers(s, source, at)
              && forall c :: c in closures && Covers(c, source, at) ==> s.sequence <= c.sequence
  {
    if closures != [] {
      var init := closures[..|closures| - 1];
      assert closures == init + [closures[|closures| - 1]];
      SelectMeaning(init, source, at);
    }
  }

  /** Closures that come later in their source's sequence do not change a selection. */
  lemma SelectionsAgree(a: seq<Closure>, b: seq<Closure>, source: Bytes, at: Coordinate)
    requires UniqueSequences(b)
    requires forall c :: c in a ==> c in b
    requires forall c, d :: c in b && c !in a && d in a && d.source == c.source ==> d.sequence < c.sequence
    requires SelectClosure(a, source, at).Some? || forall c :: c in b ==> c in a
    ensures SelectClosure(a, source, at) == SelectClosure(b, source, at)
  {
    SelectMeaning(a, source, at);
    SelectMeaning(b, source, at);
  }

  lemma {:induction false} ProofsAgree(sources: seq<Bytes>, a: seq<Closure>, b: seq<Closure>, at: Coordinate)
    requires UniqueSequences(b)
    requires forall c :: c in a ==> c in b
    requires forall c, d :: c in b && c !in a && d in a && d.source == c.source ==> d.sequence < c.sequence
    requires Proofs(sources, a, at).Ok? || forall c :: c in b ==> c in a
    ensures Proofs(sources, a, at) == Proofs(sources, b, at)
  {
    if sources != [] {
      ProofsAgree(sources[..|sources| - 1], a, b, at);
      if Proofs(sources[..|sources| - 1], a, at).Ok? {
        SelectionsAgree(a, b, sources[|sources| - 1], at);
      }
    }
  }

  // ----- filtering forgets order -----

  lemma {:induction false} EligibleRoundsBag(rounds: seq<Round>, at: Coordinate, x: Round)
    ensures multiset(EligibleRounds(rounds, at))[x]
         == if x.lifecycle == 0 && Compare(x.eligibility, at) <= 0 then multiset(rounds)[x] else 0
  {
    if rounds != [] {
      var init := rounds[..|rounds| - 1];
      assert rounds == init + [rounds[|rounds| - 1]];
      EligibleRoundsBag(init, at, x);
    }
  }

  lemma EligibleRoundsPermutation(a: seq<Round>, b: seq<Round>, at: Coordinate)
    requires multiset(a) == multiset(b)
    ensures multiset(EligibleRounds(a, at)) == multiset(EligibleRounds(b, at))
  {
    forall x ensures multiset(EligibleRounds(a, at))[x] == multiset(EligibleRounds(b, at))[x] {
      EligibleRoundsBag(a, at, x);
      EligibleRoundsBag(b, at, x);
    }
  }

  lemma {:induction false} InputUnitsAppend(a: seq<Input>, b: seq<Input>, at: Coordinate)
    ensures InputUnits(a + b, at) == InputUnits(a, at) + InputUnits(b, at)
  {
    if b == [] {
      assert a + b == a;
    } else {
      var init, last := b[..|b| - 1], b[|b| - 1];
      assert (a + b)[..|a + b| - 1] == a + init;
      InputUnitsAppend(a, init, at);
    }
  }

  lemma InputUnitsAround(front: seq<Input>, x: Input, back: seq<Input>, at: Coordinate)
    ensures multiset(InputUnits(front + [x] + back, at))
         == multiset(InputUnits(front + back, at)) + multiset(InputUnits([x], at))
  {
    hide InputUnits;
    InputUnitsAppend(front, back, at);
    InputUnitsAppend(front, [x], at);
    InputUnitsAppend(front + [x], back, at);
  }

  lemma {:induction false} InputUnitsPermutation(a: seq<Input>, b: seq<Input>, at: Coordinate)
    requires multiset(a) == multiset(b)
    ensures multiset(InputUnits(a, at)) == multiset(InputUnits(b, at))
  {
    hide InputUnits;
    SameMembers(a, b);
    if a == [] {
      assert a == b;
    } else {
      var init, last := a[..|a| - 1], a[|a| - 1];
      assert a == init + [last] + [];
      assert last in b;
      var k :| 0 <= k < |b| && b[k] == last;
      var front, back := b[..k], b[k + 1..];
      assert b == front + [last] + back;
      TakeOneAway(init, [], front, back, last);
      assert init + [] == init;
      InputUnitsPermutation(init, front + back, at);
      InputUnitsAround(init, last, [], at);
      InputUnitsAround(front, last, back, at);
    }
  }

  // ----- order independence -----

  ghost predicate WellFormed(view: View) {
    DistinctRounds(view.rounds) && UniqueSequences(view.closures)
  }

  /** The two views list the same records, in whatever order. */
  ghost predicate SameRecords(a: View, b: View) {
    && a.sources == b.sources && a.slots == b.slots && a.run == b.run
    && multiset(a.inputs) == multiset(b.inputs)
    && multiset(a.closures) == multiset(b.closures)
    && multiset(a.rounds) == multiset(b.rounds)
  }

  lemma SortedRoundsAgree(a: seq<Round>, b: seq<Round>, at: Coordinate)
    requires DistinctRounds(a) && multiset(a) == multiset(b)
    ensures Sort(RoundLess, EligibleRounds(a, at)) == Sort(RoundLess, EligibleRounds(b, at))
  {
    RoundLessIsStrict();
    RoundsAreTotal(a);
    EligibleRoundsPermutation(a, b, at);
    SortPermutation(RoundLess, EligibleRounds(a, at), EligibleRounds(b, at));
  }

  lemma SortedUnitsAgree(a: seq<Unit>, b: seq<Unit>)
    requires multiset(a) == multiset(b)
    ensures Sort(UnitLess, a) == Sort(UnitLess, b)
  {
    UnitLessIsTotal();
    SortPermutation(UnitLess, a, b);
  }

  lemma CohortIgnoresOrder(a: View, b: View, cycle: Cycle, rounds: seq<Round>)
    requires a.slots == b.slots && a.run == b.run
    ensures CohortOf(a, cycle, rounds) == CohortOf(b, cycle, rounds)
    decreases |rounds|
  {
    if rounds != [] {
      CohortIgnoresOrder(a, b, cycle, rounds[..|rounds| - 1]);
      RoundIgnoresOrder(a, b, cycle, rounds[|rounds| - 1], rounds[|rounds| - 1].slots);
    }
  }

  lemma RoundIgnoresOrder(a: View, b: View, cycle: Cycle, round: Round, slots: seq<Bytes>)
    requires a.slots == b.slots && a.run == b.run
    ensures RoundSlots(a, cycle, round, slots) == RoundSlots(b, cycle, round, slots)
    decreases |slots|
  {
    if slots != [] {
      RoundIgnoresOrder(a, b, cycle, round, slots[..|slots| - 1]);
    }
  }

  /** A fence is decided by its proofs, its eligible rounds and the bag of its units. */
  lemma DeriveByParts(a: View, b: View, systemA: seq<Unit>, systemB: seq<Unit>, cycle: Cycle)
    requires AllAuthentic(a) <==> AllAuthentic(b)
    requires a.slots == b.slots && a.run == b.run && a.sources == b.sources
    requires Proofs(a.sources, a.closures, ClosureAt(cycle)) == Proofs(b.sources, b.closures, ClosureAt(cycle))
    requires Sort(RoundLess, EligibleRounds(a.rounds, At(cycle))) == Sort(RoundLess, EligibleRounds(b.rounds, At(cycle)))
    requires multiset(InputUnits(a.inputs, At(cycle))) == multiset(InputUnits(b.inputs, At(cycle)))
    requires multiset(systemA) == multiset(systemB)
    ensures Derive(a, systemA, cycle) == Derive(b, systemB, cycle)
  {
    hide AllAuthentic, Proofs, CohortOf, EligibleRounds, InputUnits, Sort, SystemUnitIsValid, PlanIsValid;
    SameMembers(systemA, systemB);
    var rounds := Sort(RoundLess, EligibleRounds(a.rounds, At(cycle)));
    CohortIgnoresOrder(a, b, cycle, rounds);
    var cohort := CohortOf(a, cycle, rounds);
    if cohort.Ok? {
      SortedUnitsAgree(cohort.value.units + InputUnits(a.inputs, At(cycle)) + systemA,
                       cohort.value.units + InputUnits(b.inputs, At(cycle)) + systemB);
    }
  }

  lemma AuthenticityIgnoresOrder(a: View, b: View)
    requires SameRecords(a, b)
    ensures AllAuthentic(a) <==> AllAuthentic(b)
  {
    SameMembers(a.inputs, b.inputs);
    SameMembers(a.closures, b.closures);
    SameMembers(a.rounds, b.rounds);
  }

  /** The fence is a function of the ledger's contents: the order of closures, inputs,
      rounds and system units plays no part, in success or in failure. */
  lemma DeriveIgnoresOrder(a: View, b: View, systemA: seq<Unit>, systemB: seq<Unit>, cycle: Cycle)
    requires WellFormed(a) && SameRecords(a, b) && multiset(systemA) == multiset(systemB)
    ensures Derive(a, systemA, cycle) == Derive(b, systemB, cycle)
  {
    hide AllAuthentic, Proofs, CohortOf, EligibleRounds, InputUnits, Sort, Derive;
    AuthenticityIgnoresOrder(a, b);
    SameMembers(a.closures, b.closures);
    ProofsAgree(a.sources, a.closures, b.closures, ClosureAt(cycle));
    SortedRoundsAgree(a.rounds, b.rounds, At(cycle));
    InputUnitsPermutation(a.inputs, b.inputs, At(cycle));
    DeriveByParts(a, b, systemA, systemB, cycle);
  }

  // ----- appending to the ledger -----

  /** One ingress record of a source, with the sequence number on its receipt. */
  datatype Arrival =
    | InputArrival(source: Bytes, sequence: nat, id: Bytes, digest: Bytes, eligibility: Coordinate)
    | ClosureArrival(source: Bytes, sequence: nat, id: Bytes, digest: Bytes, closedThrough: Coordinate, final: bool)

  datatype AppendError = UnknownSource | SourceFinal | IngressNotContiguous | ClosureRegression | RetroactiveEligibility

  /** What a source's prefix says so far. */
  datatype Prefix = Prefix(count: nat, closed: Option<Coordinate>, final: bool)

  function PrefixOf(log: seq<Arrival>, source: Bytes): Prefix {
    if log == [] then Prefix(0, None, false)
    else
      var prior, a := PrefixOf(log[..|log| - 1], source), log[|log| - 1];
      if a.source != source then prior
      else if a.InputArrival? then prior.(count := prior.count + 1)
      else Prefix(prior.count + 1, Some(a.closedThrough), a.final)
  }

  /** The checks made before a record is appended. */
  function CheckAppend(sources: seq<Bytes>, log: seq<Arrival>, a: Arrival): Option<AppendError> {
    var prefix := PrefixOf(log, a.source);
    if a.source !in sources then Some(UnknownSource)
    else if prefix.final then Some(SourceFinal)
    else if a.sequence != prefix.count then Some(IngressNotContiguous)
    else if a.ClosureArrival? then
      if prefix.closed.Some? && Compare(a.closedThrough, prefix.closed.value) < 0 then Some(ClosureRegression) else None
    else if prefix.closed.Some? && Compare(a.eligibility, prefix.closed.value) <= 0 then Some(RetroactiveEligibility)
    else None
  }

  ghost predicate Legal(sources: seq<Bytes>, log: seq<Arrival>) {
    forall i :: 0 <= i < |log| ==> CheckAppend(sources, log[..i], log[i]) == None
  }

  function InputsOf(log: seq<Arrival>): seq<Input> {
    if log == [] then []
    else
      var a := log[|log| - 1];
      InputsOf(log[..|log| - 1])
      + if a.InputArrival? then [Input(a.id, a.digest, a.source, a.sequence, a.eligibility, true)] else []
  }

  function ClosureOf(a: Arrival): Closure
    requires a.ClosureArrival?
  {
    Closure(a.id, a.digest, a.source, a.sequence, a.closedThrough, a.final, true)
  }

  function ClosuresOf(log: seq<Arrival>): seq<Closure> {
    if log == [] then []
    else
      var a := log[|log| - 1];
      ClosuresOf(log[..|log| - 1]) + if a.ClosureArrival? then [ClosureOf(a)] else []
  }

  ghost predicate Shows(view: View, log: seq<Arrival>) {
    multiset(view.inputs) == multiset(InputsOf(log)) && multiset(view.closures) == multiset(ClosuresOf(log))
  }

  lemma LegalTake(sources: seq<Bytes>, log: seq<Arrival>, n: nat)
    requires Legal(sources, log) && n < |log|
    ensures Legal(sources, log[..n])
    ensures CheckAppend(sources, log[..n], log[n]) == None
  {
    forall i | 0 <= i < n ensures CheckAppend(sources, log[..n][..i], log[..n][i]) == None {
      assert log[..n][..i] == log[..i];
    }
  }

  /** A legal prefix remembers every closure it contains. */
  lemma {:induction false} PrefixCoversClosures(sources: seq<Bytes>, log: seq<Arrival>)
    requires Legal(sources, log)
    ensures forall c :: c in ClosuresOf(log) ==>
              var prefix := PrefixOf(log, c.source);
              && c.sequence < prefix.count
              && (c.final ==> prefix.final)
              && prefix.closed.Some? && !Before(prefix.closed.value, c.closedThrough)
              && c.authentic
    ensures UniqueSequences(ClosuresOf(log))
  {
    if log != [] {
      LegalTake(sources, log, |log| - 1);
      PrefixCoversClosures(sources, log[..|log| - 1]);
    }
  }

  lemma {:induction false} InputsAreAuthentic(log: seq<Arrival>)
    ensures forall i :: i in InputsOf(log) ==> i.authentic
  {
    if log != [] {
      InputsAreAuthentic(log[..|log| - 1]);
    }
  }

  ghost predicate IsCovered(closures: seq<Closure>, source: Bytes, at: Coordinate) {
    exists c :: c in closures && Covers(c, source, at)
  }

  /** Every source of the list has a closure covering `at`. */
  ghost predicate ClosedThrough(sources: seq<Bytes>, log: seq<Arrival>, at: Coordinate) {
    forall source :: source in sources ==> IsCovered(ClosuresOf(log), source, at)
  }

  /** Once every source is closed through `at`, a legal append cannot reach back to it. */
  lemma ArrivalIsLate(sources: seq<Bytes>, log: seq<Arrival>, at: Coordinate, a: Arrival)
    requires Legal(sources, log) && ClosedThrough(sources, log, at)
    requires CheckAppend(sources, log, a) == None
    ensures a.InputArrival? ==> Before(at, a.eligibility)
    ensures forall c :: c in ClosuresOf(log) && c.source == a.source ==> c.sequence < a.sequence
  {
    PrefixCoversClosures(sources, log);
    assert IsCovered(ClosuresOf(log), a.source, at);
    var c :| c in ClosuresOf(log) && Covers(c, a.source, at);
  }

  /** Everything `longer` says beyond `log` is about coordinates after `at`, or comes later
      in its source's sequence. */
  ghost predicate OnlyLater(log: seq<Arrival>, longer: seq<Arrival>, at: Coordinate) {
    && (forall cut :: !Before(at, cut) ==> InputUnits(InputsOf(longer), cut) == InputUnits(InputsOf(log), cut))
    && (forall c :: c in ClosuresOf(log) ==> c in ClosuresOf(longer))
    && (forall c, d :: c in ClosuresOf(longer) && c !in ClosuresOf(log) && d in ClosuresOf(log) ==>
                         d.source == c.source ==> d.sequence < c.sequence)
  }

  lemma StillClosed(sources: seq<Bytes>, log: seq<Arrival>, longer: seq<Arrival>, at: Coordinate)
    requires ClosedThrough(sources, log, at) && OnlyLater(log, longer, at)
    ensures ClosedThrough(sources, longer, at)
  {
    forall source | source in sources ensures IsCovered(ClosuresOf(longer), source, at) {
      assert IsCovered(ClosuresOf(log), source, at);
      var c :| c in ClosuresOf(log) && Covers(c, source, at);
      assert c in ClosuresOf(longer);
    }
  }

  lemma OneAppendIsLate(log: seq<Arrival>, so: seq<Arrival>, a: Arrival, at: Coordinate)
    requires OnlyLater(log, so, at)
    requires a.InputArrival? ==> Before(at, a.eligibility)
    requires forall c :: c in ClosuresOf(so) && c.source == a.source ==> c.sequence < a.sequence
    ensures OnlyLater(log, so + [a], at)
  {
    var longer := so + [a];
    assert longer[..|longer| - 1] == so && longer[|longer| - 1] == a;
    if a.InputArrival? {
      var i := Input(a.id, a.digest, a.source, a.sequence, a.eligibility, true);
      assert InputsOf(longer) == InputsOf(so) + [i] && ClosuresOf(longer) == ClosuresOf(so);
      forall cut | !Before(at, cut) ensures InputUnits(InputsOf(longer), cut) == InputUnits(InputsOf(log), cut) {
        assert InputsOf(longer)[..|InputsOf(longer)| - 1] == InputsOf(so);
      }
    } else {
      assert InputsOf(longer) == InputsOf(so) && ClosuresOf(longer) == ClosuresOf(so) + [ClosureOf(a)];
    }
  }

  lemma {:induction false} AppendsAreLate(sources: seq<Bytes>, log: seq<Arrival>, more: seq<Arrival>, at: Coordinate)
    requires Legal(sources, log + more) && ClosedThrough(sources, log, at)
    ensures Legal(sources, log) && OnlyLater(log, log + more, at)
  {
    if more == [] {
      assert log + more == log;
    } else {
      hide OnlyLater, InputsOf, ClosuresOf, ClosedThrough, PrefixOf, CheckAppend, Legal;
      var init, a := more[..|more| - 1], more[|more| - 1];
      var so, longer := log + init, log + more;
      assert longer == so + [a] && longer[..|so|] == so;
      LegalTake(sources, longer, |so|);
      AppendsAreLate(sources, log, init, at);
      StillClosed(sources, log, so, at);
      ArrivalIsLate(sources, so, at, a);
      OneAppendIsLate(log, so, a, at);
    }
  }

  lemma {:induction false} ProofsMeanClosed(sources: seq<Bytes>, closures: seq<Closure>, at: Coordinate)
    ensures Proofs(sources, closures, at).Ok? <==> forall source :: source in sources ==> IsCovered(closures, source, at)
  {
    if sources != [] {
      var init, last := sources[..|sources| - 1], sources[|sources| - 1];
      assert sources == init + [last];
      ProofsMeanClosed(init, closures, at);
      SelectMeaning(closures, last, at);
      assert SelectClosure(closures, last, at).Some? <==> IsCovered(closures, last, at);
      assert forall source :: source in sources <==> source in init || source == last;
    }
  }

  // ----- stability -----

  /** A fence that could be derived stays derivable, field for field, however many legal
      records arrive afterwards. */
  lemma FenceIsStable(view: View, later: View, log: seq<Arrival>, more: seq<Arrival>, system: seq<Unit>, cycle: Cycle)
    requires Legal(view.sources, log + more)
    requires Shows(view, log) && Shows(later, log + more)
    requires later.sources == view.sources && later.rounds == view.rounds
    requires later.slots == view.slots && later.run == view.run
    requires Derive(view, system, cycle).Ok?
    ensures Derive(later, system, cycle) == Derive(view, system, cycle)
  {
    hide AllAuthentic, Proofs, CohortOf, EligibleRounds, InputUnits, Sort, InputsOf, ClosuresOf, PrefixOf, Legal;
    var at, cut := ClosureAt(cycle), At(cycle);
    LedgerIsClosed(view, log, system, cycle);
    AppendsAreLate(view.sources, log, more, at);
    SameMembers(view.closures, ClosuresOf(log));
    SameMembers(later.closures, ClosuresOf(log + more));
    PrefixCoversClosures(view.sources, log + more);
    ProofsAgree(view.sources, view.closures, later.closures, at);
    InputUnitsPermutation(view.inputs, InputsOf(log), cut);
    InputUnitsPermutation(later.inputs, InputsOf(log + more), cut);
    assert multiset(InputUnits(view.inputs, cut)) == multiset(InputUnits(later.inputs, cut)) by {
      assert !Before(at, cut);
    }
    LaterIsAuthentic(view, later, log + more);
    DeriveByParts(view, later, system, system, cycle);
  }

  lemma LedgerIsClosed(view: View, log: seq<Arrival>, system: seq<Unit>, cycle: Cycle)
    requires multiset(view.closures) == multiset(ClosuresOf(log))
    requires Derive(view, system, cycle).Ok?
    ensures AllAuthentic(view) && !Before(ClosureAt(cycle), At(cycle))
    ensures ClosedThrough(view.sources, log, ClosureAt(cycle))
    ensures Proofs(view.sources, view.closures, ClosureAt(cycle)).Ok?
  {
    SameMembers(view.closures, ClosuresOf(log));
    ProofsMeanClosed(view.sources, view.closures, ClosureAt(cycle));
    forall source | source in view.sources ensures IsCovered(ClosuresOf(log), source, ClosureAt(cycle)) {
      assert IsCovered(view.closures, source, ClosureAt(cycle));
    }
  }

  lemma LaterIsAuthentic(view: View, later: View, log: seq<Arrival>)
    requires AllAuthentic(view) && Shows(later, log) && Legal(view.sources, log)
    requires later.rounds == view.rounds && later.slots == view.slots
    ensures AllAuthentic(later)
  {
    PrefixCoversClosures(view.sources, log);
    InputsAreAuthentic(log);
    SameMembers(later.closures, ClosuresOf(log));
    SameMembers(later.inputs, InputsOf(log));
  }

  /** The cut is complete: no input admissible at the cycle is still to come. */
  lemma NothingLateIsAdmissible(view: View, log: seq<Arrival>, more: seq<Arrival>, system: seq<Unit>, cycle: Cycle)
    requires Legal(view.sources, log + more) && Shows(view, log)
    requires Derive(view, system, cycle).Ok?
    ensures forall k :: 0 <= k < |more| && more[k].InputArrival? ==> Before(At(cycle), more[k].eligibility)
  {
    hide Derive, CheckAppend, PrefixOf, InputsOf, ClosuresOf, ClosedThrough, OnlyLater, AllAuthentic, Proofs, Legal;
    LedgerIsClosed(view, log, system, cycle);
    forall k | 0 <= k < |more| && more[k].InputArrival? ensures Before(At(cycle), more[k].eligibility) {
      var so := log + more[..k];
      assert (log + more)[..|log| + k] == so && (log + more)[|log| + k] == more[k];
      LegalTake(view.sources, log + more, |log| + k);
      AppendsAreLate(view.sources, log, more[..k], ClosureAt(cycle));
      StillClosed(view.sources, log, so, ClosureAt(cycle));
      ArrivalIsLate(view.sources, so, ClosureAt(cycle), more[k]);
    }
  }

  /** The wait for closures is exactly the wait for a covering closure of every source. */
  lemma WaitsForClosure(view: View, system: seq<Unit>, cycle: Cycle)
    requires AllAuthentic(view) && PlanIsValid(cycle)
    ensures (Derive(view, system, cycle).Err? && Derive(view, system, cycle).error.WaitingForClosure?)
       <==> exists source :: source in view.sources && !IsCovered(view.closures, source, ClosureAt(cycle))
  {
    ProofsMeanClosed(view.sources, view.closures, ClosureAt(cycle));
    ProofsFailWaiting(view.sources, view.closures, ClosureAt(cycle));
    CohortNeverWaitsForClosure(view, cycle, Sort(RoundLess, EligibleRounds(view.rounds, At(cycle))));
  }

  lemma {:induction false} ProofsFailWaiting(sources: seq<Bytes>, closures: seq<Closure>, at: Coordinate)
    ensures Proofs(sources, closures, at).Err? ==> Proofs(sources, closures, at).error.WaitingForClosure?
  {
    if sources != [] {
      ProofsFailWaiting(sources[..|sources| - 1], closures, at);
    }
  }

  lemma {:induction false} CohortNeverWaitsForClosure(view: View, cycle: Cycle, rounds: seq<Round>)
    ensures CohortOf(view, cycle, rounds).Err? ==> !CohortOf(view, cycle, rounds).error.WaitingForClosure?
  {
    if rounds != [] {
      CohortNeverWaitsForClosure(view, cycle, rounds[..|rounds| - 1]);
      SlotsNeverWaitForClosure(view, cycle, rounds[|rounds| - 1], rounds[|rounds| - 1].slots);
    }
  }

  lemma {:induction false} SlotsNeverWaitForClosure(view: View, cycle: Cycle, round: Round, slots: seq<Bytes>)
    ensures RoundSlots(view, cycle, round, slots).Err? ==>
              !RoundSlots(view, cycle, round, slots).error.WaitingForClosure?
  {
    if slots != [] {
      SlotsNeverWaitForClosure(view, cycle, round, slots[..|slots| - 1]);
    }
  }

  // ----- what a fence says -----

  /** An open round is eligible at the cut, and one of its slots holds this response. */
  ghost predicate Answered(view: View, at: Coordinate, round: Round, slot: Bytes, r: Response) {
    && round in view.rounds && round.lifecycle == 0 && !Before(at, round.eligibility)
    && slot in round.slots
    && round.id in view.slots && slot in view.slots[round.id] && view.slots[round.id][slot] == r
  }

  ghost predicate FromSlot(view: View, at: Coordinate, u: Unit) {
    exists round, slot, r :: Answered(view, at, round, slot, r) && u == Unit(round.eligibility, 0, round.source, r.id, r.digest)
  }

  ghost predicate FromInput(view: View, at: Coordinate, u: Unit) {
    exists i :: i in view.inputs && !Before(at, i.eligibility) && u == Unit(i.eligibility, 1, i.source, i.id, i.digest)
  }

  lemma {:induction false} InputUnitsMeaning(inputs: seq<Input>, at: Coordinate, u: Unit)
    ensures u in InputUnits(inputs, at) <==> exists i :: i in inputs && !Before(at, i.eligibility) && u == InputUnit(i)
  {
    if inputs != [] {
      var init, last := inputs[..|inputs| - 1], inputs[|inputs| - 1];
      assert inputs == init + [last];
      InputUnitsMeaning(init, at, u);
      assert last in inputs;
    }
  }

  lemma {:induction false} RoundSlotsMeaning(view: View, cycle: Cycle, round: Round, slots: seq<Bytes>)
    requires RoundSlots(view, cycle, round, slots).Ok?
    ensures var a := RoundSlots(view, cycle, round, slots).value;
            && |a.slots| == |slots| == |a.units|
            && forall k :: 0 <= k < |slots| ==>
                 && SlotResponse(view, cycle, round, slots[k]).Ok?
                 && a.slots[k] == CohortSlotOf(slots[k], SlotResponse(view, cycle, round, slots[k]).value)
                 && a.units[k] == SlotUnit(round, SlotResponse(view, cycle, round, slots[k]).value)
  {
    if slots != [] {
      RoundSlotsMeaning(view, cycle, round, slots[..|slots| - 1]);
    }
  }

  /** The units of a cohort are the responses in the slots of its rounds. */
  ghost predicate InCohort(view: View, cycle: Cycle, rounds: seq<Round>, u: Unit) {
    exists round, slot :: round in rounds && slot in round.slots && SlotResponse(view, cycle, round, slot).Ok?
                          && u == SlotUnit(round, SlotResponse(view, cycle, round, slot).value)
  }

  lemma {:induction false} CohortMeaning(view: View, cycle: Cycle, rounds: seq<Round>, u: Unit)
    requires CohortOf(view, cycle, rounds).Ok?
    ensures u in CohortOf(view, cycle, rounds).value.units <==> InCohort(view, cycle, rounds, u)
    ensures |CohortOf(view, cycle, rounds).value.rounds| == |rounds|
    ensures forall k :: 0 <= k < |rounds| ==>
              && RoundSlots(view, cycle, rounds[k], rounds[k].slots).Ok?
              && CohortOf(view, cycle, rounds).value.rounds[k]
              == CohortRound(rounds[k].id, RoundSlots(view, cycle, rounds[k], rounds[k].slots).value.slots)
  {
    if rounds != [] {
      var init, last := rounds[..|rounds| - 1], rounds[|rounds| - 1];
      assert rounds == init + [last];
      CohortMeaning(view, cycle, init, u);
      OneRoundMeaning(view, cycle, last, u);
      assert InCohort(view, cycle, rounds, u) <==> InCohort(view, cycle, init, u) || InCohort(view, cycle, [last], u) by {
        InCohortSplits(view, cycle, init, last, u);
      }
    }
  }

  lemma InCohortSplits(view: View, cycle: Cycle, init: seq<Round>, last: Round, u: Unit)
    ensures InCohort(view, cycle, init + [last], u) <==> InCohort(view, cycle, init, u) || InCohort(view, cycle, [last], u)
  {
    hide SlotResponse, SlotUnit;
    assert forall r :: r in init + [last] <==> r in init || r == last;
    assert last in [last];
  }

  lemma OneRoundMeaning(view: View, cycle: Cycle, round: Round, u: Unit)
    requires RoundSlots(view, cycle, round, round.slots).Ok?
    ensures u in RoundSlots(view, cycle, round, round.slots).value.units <==> InCohort(view, cycle, [round], u)
  {
    hide RoundSlots, SlotResponse, SlotUnit;
    RoundSlotsMeaning(view, cycle, round, round.slots);
    var units := RoundSlots(view, cycle, round, round.slots).value.units;
    if u in units {
      var k :| 0 <= k < |units| && units[k] == u;
      assert round in [round] && round.slots[k] in round.slots;
    }
    if InCohort(view, cycle, [round], u) {
      var slot :| slot in round.slots && SlotResponse(view, cycle, round, slot).Ok?
                  && u == SlotUnit(round, SlotResponse(view, cycle, round, slot).value);
      var k :| 0 <= k < |round.slots| && round.slots[k] == slot;
      assert units[k] == u;
    }
  }

  /** The units of a fence are exactly the eligible inputs, the responses in the slots of the
      eligible open rounds, and the system units, in the five-key order; an advance has none. */
  lemma FenceUnitsAreExact(view: View, system: seq<Unit>, cycle: Cycle, fields: Fields)
    requires Derive(view, system, cycle) == Ok(fields)
    ensures forall u :: u in fields.units <==> FromSlot(view, At(cycle), u) || FromInput(view, At(cycle), u) || u in system
    ensures Sorted(UnitLess, fields.units)
    ensures forall u :: u in fields.units ==> !Before(At(cycle), u.eligibility)
    ensures cycle.plan.Advance? ==> fields.units == []
  {
    hide AllAuthentic, Proofs, CohortOf, InputUnits, Sort, PlanIsValid, UnitLess, FromSlot, FromInput;
    var at := At(cycle);
    var rounds := Sort(RoundLess, EligibleRounds(view.rounds, at));
    var cohort := CohortOf(view, cycle, rounds).value;
    var all := cohort.units + InputUnits(view.inputs, at) + system;
    assert fields.units == Sort(UnitLess, all);
    UnitLessIsTotal();
    SortSorted(UnitLess, all);
    SameMembers(fields.units, all);
    forall u ensures u in fields.units <==> FromSlot(view, at, u) || FromInput(view, at, u) || u in system {
      CohortMeaning(view, cycle, rounds, u);
      InCohortIsFromSlot(view, cycle, rounds, u);
      FromInputMeaning(view, at, u);
    }
    forall u | u in fields.units ensures !Before(at, u.eligibility) {
      OriginsAreEligible(view, at, u);
    }
  }

  lemma FromInputMeaning(view: View, at: Coordinate, u: Unit)
    ensures u in InputUnits(view.inputs, at) <==> FromInput(view, at, u)
  {
    hide InputUnits;
    InputUnitsMeaning(view.inputs, at, u);
  }

  lemma OriginsAreEligible(view: View, at: Coordinate, u: Unit)
    ensures FromSlot(view, at, u) || FromInput(view, at, u) ==> !Before(at, u.eligibility)
  {
  }

  lemma InCohortIsFromSlot(view: View, cycle: Cycle, rounds: seq<Round>, u: Unit)
    requires rounds == Sort(RoundLess, EligibleRounds(view.rounds, At(cycle)))
    requires CohortOf(view, cycle, rounds).Ok?
    ensures InCohort(view, cycle, rounds, u) <==> FromSlot(view, At(cycle), u)
  {
    hide Sort, CohortOf, RoundSlots;
    var at := At(cycle);
    SameMembers(rounds, EligibleRounds(view.rounds, at));
    if FromSlot(view, at, u) {
      var round, slot, r :| Answered(view, at, round, slot, r) && u == Unit(round.eligibility, 0, round.source, r.id, r.digest);
      assert round in rounds;
      SlotsOfCohortAnswer(view, cycle, rounds, round, slot);
    }
    if InCohort(view, cycle, rounds, u) {
      var round, slot :| round in rounds && slot in round.slots && SlotResponse(view, cycle, round, slot).Ok?
                         && u == SlotUnit(round, SlotResponse(view, cycle, round, slot).value);
      assert Answered(view, at, round, slot, SlotResponse(view, cycle, round, slot).value);
    }
  }

  lemma SlotsOfCohortAnswer(view: View, cycle: Cycle, rounds: seq<Round>, round: Round, slot: Bytes)
    requires CohortOf(view, cycle, rounds).Ok? && round in rounds && slot in round.slots
    ensures SlotResponse(view, cycle, round, slot).Ok?
  {
    hide CohortOf, RoundSlots, SlotResponse;
    CohortMeaning(view, cycle, rounds, Unit(Coordinate(0, 0), 0, [], [], []));
    var k :| 0 <= k < |rounds| && rounds[k] == round;
    RoundSlotsMeaning(view, cycle, round, round.slots);
    var j :| 0 <= j < |round.slots| && round.slots[j] == slot;
  }

  /** A fence carries one proof for each source, in order: its first closure, by sequence, that
      covers the cut. */
  lemma {:induction false} ProofsAreFirstClosures(sources: seq<Bytes>, closures: seq<Closure>, at: Coordinate)
    requires Proofs(sources, closures, at).Ok?
    ensures |Proofs(sources, closures, at).value| == |sources|
    ensures forall k :: 0 <= k < |sources| ==> IsFirstClosure(closures, sources[k], at, Proofs(sources, closures, at).value[k])
  {
    if sources != [] {
      var init, last := sources[..|sources| - 1], sources[|sources| - 1];
      ProofsAreFirstClosures(init, closures, at);
      SelectMeaning(closures, last, at);
    }
  }

  ghost predicate IsFirstClosure(closures: seq<Closure>, source: Bytes, at: Coordinate, proof: Proof) {
    exists c :: c in closures && Covers(c, source, at)
                && proof == Proof(source, c.id, c.digest, c.sequence, c.closedThrough, c.final)
                && forall d :: d in closures && Covers(d, source, at) ==> c.sequence <= d.sequence
  }
}

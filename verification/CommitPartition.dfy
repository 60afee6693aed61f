/** The independent recheck of a commit transition: does it partition the fence? */
module CommitPartition {
  import opened Bytes
  import opened Domain
  import opened Json
  import opened Sorting

  type Id = Bytes

  datatype Unit = Unit(id: Id, digest: Bytes)

  /** An owner's record of a unit; `recordDigest` is the digest of its body, recomputed. */
  datatype Source = Source(noProposal: bool, unitDigest: Bytes, recordDigest: Bytes)

  datatype Candidate = Candidate(id: Id, units: seq<Id>, resolver: Bytes, drafts: nat)

  datatype Disposition = Commit | Reject | Defer | Deduplicated | NoProposal | Unknown(name: Bytes)

  datatype Decision = Decision(subject: Id, disposition: Disposition, candidate: Option<Id>, produced: seq<Id>,
                               reason: Bytes, resolver: Bytes, policyIsCurrent: bool,
                               conflicts: seq<Id>, draws: seq<Id>, successor: Option<Id>, canonical: Option<Id>)

  datatype Provisional = Provisional(disposition: Disposition, candidate: Id, reason: Bytes)

  datatype Successor = Successor(id: Id, run: Id, provenance: Id, eligibility: Option<Place>)

  /** The position a unit was first admitted at; null when it never was. */
  datatype Historical = Historical(identity: Bytes, firstFence: Option<Json>, index: Option<Json>)

  /** The state is decoded JSON: coordinates and positions are what its numbers are read as, on a
      platform whose conversion of 2^64 saturates or does not. */
  datatype Transition = Transition(
    units: seq<Unit>, sources: map<Id, Source>, candidates: seq<Candidate>, decisions: seq<Decision>,
    provisionals: map<Id, Provisional>, conflictSets: set<Id>, draws: set<Id>, successors: seq<Successor>,
    run: Id, instant: Json, ordinal: Json, historical: map<Id, Historical>, admissions: map<Id, Bytes>, saturates: bool)

  // ----- acceptance -----

  /** Units by identity: of two with the same identity the later one counts. */
  function UnitMap(units: seq<Unit>): map<Id, Unit> {
    if units == [] then map[] else UnitMap(units[..|units| - 1])[units[|units| - 1].id := units[|units| - 1]]
  }

  predicate SourceMatches(t: Transition, u: Unit) {
    u.id in t.sources && t.sources[u.id].unitDigest == u.digest && t.sources[u.id].recordDigest == u.digest
  }

  function CandidateId(c: Candidate): Id {
    c.id
  }

  function SubjectOf(d: Decision): Id {
    d.subject
  }

  function Itself(id: Id): Id {
    id
  }

  /** The candidates list only admitted units, each of them once and in one candidate. */
  ghost predicate CandidatesPartition(candidates: seq<Candidate>, units: map<Id, Unit>) {
    && DistinctBy(CandidateId, candidates)
    && (forall c :: c in candidates ==> ListsUnits(c, units))
    && forall c, d :: c in candidates && d in candidates && c != d ==> Apart(c, d)
  }

  ghost predicate ListsUnits(c: Candidate, units: map<Id, Unit>) {
    DistinctBy(Itself, c.units) && forall id :: id in c.units ==> id in units
  }

  ghost predicate Apart(c: Candidate, d: Candidate) {
    forall id :: id in c.units ==> id !in d.units
  }

  ghost predicate DecisionsCover(decisions: seq<Decision>, units: map<Id, Unit>) {
    && DistinctBy(SubjectOf, decisions)
    && (forall d :: d in decisions ==> d.subject in units)
    && |decisions| == |units|
  }

  /** The first successor with the wanted identity, run and provenance decides. */
  function FirstSuccessor(successors: seq<Successor>, wanted: Id, subject: Id, run: Id): (r: Option<Successor>)
    ensures r.Some? ==> r.value in successors && r.value.id == wanted && r.value.run == run && r.value.provenance == subject
    ensures r.Some? ==> r.value.eligibility.Some?
  {
    if successors == [] then None
    else
      var s := successors[0];
      if s.id == wanted && s.run == run && s.provenance == subject && s.eligibility.Some? then Some(s)
      else FirstSuccessor(successors[1..], wanted, subject, run)
  }

  /** The comparison as `uint64` arithmetic makes it: the ordinal after the largest is zero. */
  predicate AfterFence(t: Transition, e: Place) {
    var instant, ordinal := Reading(t.instant, t.saturates), Reading(t.ordinal, t.saturates);
    || Reading(e.0, t.saturates) > instant
    || (Reading(e.0, t.saturates) == instant && Reading(e.1, t.saturates) >= (ordinal + 1) % TWO_TO_64)
  }

  predicate HasSuccessor(t: Transition, d: Decision) {
    && d.successor.Some?
    && FirstSuccessor(t.successors, d.successor.value, d.subject, t.run).Some?
    && AfterFence(t, FirstSuccessor(t.successors, d.successor.value, d.subject, t.run).value.eligibility.value)
  }

  /** A position with a number that cannot be read. It is never earlier than another one, but it
      can still be chosen, and then counts from zero. */
  predicate IsPlaced(h: Historical, saturates: bool) {
    h.firstFence.Some? && h.index.Some? && IsRead(h.firstFence.value, saturates) && IsRead(h.index.value, saturates)
  }

  function Position(h: Historical, saturates: bool): (U64, U64)
    requires h.firstFence.Some? && h.index.Some?
  {
    (Reading(h.firstFence.value, saturates), Reading(h.index.value, saturates))
  }

  predicate ComesEarlier(a: Historical, b: Historical, saturates: bool)
    requires b.firstFence.Some? && b.index.Some?
  {
    IsPlaced(a, saturates) && PositionLess(Position(a, saturates), Position(b, saturates))
  }

  predicate PositionLess(a: (U64, U64), b: (U64, U64)) {
    a.0 < b.0 || (a.0 == b.0 && a.1 < b.1)
  }

  /** The canonical unit is the earliest admitted one with the same idempotency identity. */
  ghost predicate Deduplicates(t: Transition, d: Decision) {
    && d.canonical.Some? && d.canonical.value != d.subject
    && d.canonical.value in t.historical && d.subject in t.admissions
    && var chosen := t.historical[d.canonical.value];
    && chosen.firstFence.Some? && chosen.index.Some?
    && chosen.identity == t.admissions[d.subject]
    && forall id :: id in t.historical && t.historical[id].identity == chosen.identity ==> !ComesEarlier(t.historical[id], chosen, t.saturates)
  }

  /** The outcome of a decision agrees with its candidate and its provisional settlement. */
  ghost predicate Settled(t: Transition, d: Decision, c: Candidate) {
    && d.subject in t.provisionals
    && (d.disposition == Deduplicated || t.provisionals[d.subject].disposition == d.disposition)
    && t.provisionals[d.subject].candidate == c.id
    && t.provisionals[d.subject].reason == d.reason
    && d.resolver == c.resolver && d.policyIsCurrent
    && (forall id :: id in d.conflicts ==> id in t.conflictSets)
    && (forall id :: id in d.draws ==> id in t.draws)
    && match d.disposition
       case Commit => |d.produced| == c.drafts
       case Reject => d.produced == []
       case Defer => d.produced == [] && HasSuccessor(t, d)
       case Deduplicated => d.produced == [] && Deduplicates(t, d)
       case _ => true
  }

  ghost predicate DecisionIsSound(t: Transition, d: Decision) {
    if d.disposition == NoProposal then
      d.subject in t.sources && t.sources[d.subject].noProposal && d.candidate == None && d.produced == []
    else
      exists c :: c in t.candidates && d.candidate == Some(c.id) && d.subject in c.units && Settled(t, d, c)
  }

  ghost function Deferred(decisions: seq<Decision>): set<Id> {
    set d | d in decisions && d.disposition == Defer :: d.subject
  }

  ghost predicate Accepted(t: Transition) {
    var units := UnitMap(t.units);
    && (forall id :: id in units ==> SourceMatches(t, units[id]))
    && CandidatesPartition(t.candidates, units)
    && DecisionsCover(t.decisions, units)
    && (forall d :: d in t.decisions ==> DecisionIsSound(t, d))
    && |t.successors| == |Deferred(t.decisions)|
  }

  // ----- the validator's loops -----

  method CollectUnits(units: seq<Unit>) returns (m: map<Id, Unit>)
    ensures m == UnitMap(units)
  {
    m := map[];
    for i := 0 to |units|
      invariant m == UnitMap(units[..i])
    {
      assert units[..i + 1][..i] == units[..i];
      m := m[units[i].id := units[i]];
    }
    assert units[..|units|] == units;
  }

  method CheckSources(t: Transition, units: map<Id, Unit>) returns (ok: bool)
    ensures ok <==> forall id :: id in units ==> SourceMatches(t, units[id])
  {
    var rest := units.Keys;
    while rest != {}
      invariant rest <= units.Keys
      invariant forall id :: id in units && id !in rest ==> SourceMatches(t, units[id])
    {
      var id :| id in rest;
      if !SourceMatches(t, units[id]) {
        return false;
      }
      rest := rest - {id};
    }
    return true;
  }

  /** Who produces a unit: the candidate that lists it. */
  ghost predicate Lists(candidates: seq<Candidate>, id: Id) {
    exists c :: c in candidates && id in c.units
  }

  ghost predicate IsProducerMap(producer: map<Id, Id>, candidates: seq<Candidate>) {
    && (forall id :: id in producer <==> Lists(candidates, id))
    && (forall c, id :: c in candidates && id in c.units ==> id in producer && producer[id] == c.id)
  }

  function Assigned(producer: map<Id, Id>, ids: seq<Id>, to: Id): (r: map<Id, Id>)
    ensures forall id :: id in r <==> id in producer || id in ids
    ensures forall id :: id in ids ==> r[id] == to
    ensures forall id :: id in producer && id !in ids ==> r[id] == producer[id]
  {
    if ids == [] then producer
    else
      assert ids == ids[..|ids| - 1] + [ids[|ids| - 1]];
      Assigned(producer, ids[..|ids| - 1], to)[ids[|ids| - 1] := to]
  }

  /** Enters the units of one candidate, as long as each is admitted and not yet listed. */
  method EnterUnits(c: Candidate, units: map<Id, Unit>, producer: map<Id, Id>) returns (ok: bool, r: map<Id, Id>)
    ensures ok <==> ListsUnits(c, units) && forall id :: id in c.units ==> id !in producer
    ensures ok ==> r == Assigned(producer, c.units, c.id)
  {
    hide DistinctBy;
    r := producer;
    assert DistinctBy(Itself, c.units[..0]) by {
      DistinctNothing(Itself);
    }
    for i := 0 to |c.units|
      invariant DistinctBy(Itself, c.units[..i])
      invariant forall id :: id in c.units[..i] ==> id in units && id !in producer
      invariant r == Assigned(producer, c.units[..i], c.id)
    {
      var id := c.units[i];
      assert c.units[..i + 1] == c.units[..i] + [id] && c.units[..i + 1][..i] == c.units[..i];
      DistinctOneMore(Itself, c.units[..i], id);
      if id !in units || id in r {
        DistinctPrefix(Itself, c.units, i + 1);
        return false, r;
      }
      r := r[id := c.id];
    }
    assert c.units[..|c.units|] == c.units;
    ok := true;
  }

  lemma ListsOneMore(init: seq<Candidate>, c: Candidate, id: Id)
    ensures Lists(init + [c], id) <==> Lists(init, id) || id in c.units
  {
    assert forall d :: d in init + [c] <==> d in init || d == c;
  }

  lemma ProducerOneMore(init: seq<Candidate>, c: Candidate, producer: map<Id, Id>)
    requires IsProducerMap(producer, init) && forall id :: id in c.units ==> id !in producer
    ensures IsProducerMap(Assigned(producer, c.units, c.id), init + [c])
  {
    hide Assigned, Lists;
    forall id ensures Lists(init + [c], id) <==> Lists(init, id) || id in c.units {
      ListsOneMore(init, c, id);
    }
    assert forall d :: d in init + [c] <==> d in init || d == c;
  }

  lemma ApartFromAll(init: seq<Candidate>, c: Candidate, producer: map<Id, Id>)
    requires IsProducerMap(producer, init)
    ensures (forall id :: id in c.units ==> id !in producer) <==> forall d :: d in init ==> Apart(c, d) && Apart(d, c)
  {
  }

  lemma PartitionOneMore(init: seq<Candidate>, c: Candidate, units: map<Id, Unit>, producer: map<Id, Id>)
    requires CandidatesPartition(init, units) && IsProducerMap(producer, init)
    ensures CandidatesPartition(init + [c], units) <==>
            && (forall d :: d in init ==> d.id != c.id)
            && ListsUnits(c, units)
            && forall id :: id in c.units ==> id !in producer
    ensures CandidatesPartition(init + [c], units) ==> IsProducerMap(Assigned(producer, c.units, c.id), init + [c])
  {
    hide ListsUnits, DistinctBy, Apart, IsProducerMap, Assigned;
    DistinctOneMore(CandidateId, init, c);
    ApartFromAll(init, c, producer);
    var all := init + [c];
    assert c in all && forall d :: d in all <==> d in init || d == c;
    if forall id :: id in c.units ==> id !in producer {
      ProducerOneMore(init, c, producer);
    }
  }

  lemma {:induction false} PartitionIsHereditary(candidates: seq<Candidate>, n: nat, units: map<Id, Unit>)
    requires n <= |candidates| && CandidatesPartition(candidates, units)
    ensures CandidatesPartition(candidates[..n], units)
  {
    forall i, j | 0 <= i < j < n ensures CandidateId(candidates[..n][i]) != CandidateId(candidates[..n][j]) {
      assert CandidateId(candidates[i]) != CandidateId(candidates[j]);
    }
  }

  /** Checks that the candidates partition their units, and remembers who lists what. */
  method CollectCandidates(candidates: seq<Candidate>, units: map<Id, Unit>)
    returns (ok: bool, byId: map<Id, Candidate>, producer: map<Id, Id>)
    ensures ok <==> CandidatesPartition(candidates, units)
    ensures ok ==> IsProducerMap(producer, candidates)
    ensures ok ==> forall c :: c in candidates ==> c.id in byId && byId[c.id] == c
    ensures ok ==> forall id :: id in byId ==> byId[id] in candidates && byId[id].id == id
  {
    hide CandidatesPartition, IsProducerMap, ListsUnits;
    byId, producer := map[], map[];
    NoCandidates(units);
    assert candidates[..0] == [];
    for i := 0 to |candidates|
      invariant CandidatesPartition(candidates[..i], units)
      invariant IsProducerMap(producer, candidates[..i])
      invariant forall c :: c in candidates[..i] ==> c.id in byId && byId[c.id] == c
      invariant forall id :: id in byId ==> byId[id] in candidates[..i] && byId[id].id == id
    {
      var c := candidates[i];
      assert candidates[..i + 1] == candidates[..i] + [c];
      PartitionOneMore(candidates[..i], c, units, producer);
      if c.id in byId {
        RefusedEarly(candidates, i + 1, units);
        return false, byId, producer;
      }
      var entered, more := EnterUnits(c, units, producer);
      if !entered {
        RefusedEarly(candidates, i + 1, units);
        return false, byId, producer;
      }
      byId, producer := byId[c.id := c], more;
    }
    assert candidates[..|candidates|] == candidates;
    ok := true;
  }

  lemma RefusedEarly(candidates: seq<Candidate>, n: nat, units: map<Id, Unit>)
    requires n <= |candidates| && !CandidatesPartition(candidates[..n], units)
    ensures !CandidatesPartition(candidates, units)
  {
    hide CandidatesPartition;
    if CandidatesPartition(candidates, units) {
      PartitionIsHereditary(candidates, n, units);
    }
  }

  lemma NoCandidates(units: map<Id, Unit>)
    ensures CandidatesPartition([], units) && IsProducerMap(map[], [])
  {
  }

  /** One decision for each unit: no subject twice, none unknown, none missing. */
  method CollectDecisions(decisions: seq<Decision>, units: map<Id, Unit>) returns (ok: bool, bySubject: map<Id, Decision>)
    ensures ok <==> DecisionsCover(decisions, units)
    ensures ok ==> forall d :: d in decisions ==> d.subject in bySubject && bySubject[d.subject] == d
    ensures ok ==> forall id :: id in bySubject ==> bySubject[id] in decisions && bySubject[id].subject == id
  {
    hide DistinctBy;
    bySubject := map[];
    assert DistinctBy(SubjectOf, decisions[..0]) by {
      DistinctNothing(SubjectOf);
    }
    for i := 0 to |decisions|
      invariant DistinctBy(SubjectOf, decisions[..i])
      invariant forall d :: d in decisions[..i] ==> d.subject in units && d.subject in bySubject && bySubject[d.subject] == d
      invariant forall id :: id in bySubject ==> bySubject[id] in decisions[..i] && bySubject[id].subject == id
      invariant |bySubject| == i
    {
      var d := decisions[i];
      assert decisions[..i + 1] == decisions[..i] + [d];
      DistinctOneMore(SubjectOf, decisions[..i], d);
      if d.subject in bySubject || d.subject !in units {
        DistinctPrefix(SubjectOf, decisions, i + 1);
        return false, bySubject;
      }
      bySubject := bySubject[d.subject := d];
    }
    assert decisions[..|decisions|] == decisions;
    ok := |bySubject| == |units|;
  }

  method SuccessorExists(t: Transition, wanted: Id, subject: Id) returns (ok: bool)
    ensures var s := FirstSuccessor(t.successors, wanted, subject, t.run);
            ok <==> s.Some? && AfterFence(t, s.value.eligibility.value)
  {
    for i := 0 to |t.successors|
      invariant FirstSuccessor(t.successors, wanted, subject, t.run) == FirstSuccessor(t.successors[i..], wanted, subject, t.run)
    {
      var s := t.successors[i];
      if s.id == wanted && s.run == t.run && s.provenance == subject && s.eligibility.Some? {
        return AfterFence(t, s.eligibility.value);
      }
    }
    ok := false;
  }

  method ValidDeduplication(t: Transition, d: Decision) returns (ok: bool)
    ensures ok <==> Deduplicates(t, d)
  {
    if d.canonical == None || d.canonical.value == d.subject {
      return false;
    }
    if d.canonical.value !in t.historical || d.subject !in t.admissions {
      return false;
    }
    var chosen := t.historical[d.canonical.value];
    if chosen.firstFence == None || chosen.index == None || chosen.identity != t.admissions[d.subject] {
      return false;
    }
    var rest := t.historical.Keys;
    while rest != {}
      invariant rest <= t.historical.Keys
      invariant forall id :: id in t.historical && id !in rest && t.historical[id].identity == chosen.identity ==>
                  !ComesEarlier(t.historical[id], chosen, t.saturates)
    {
      var id :| id in rest;
      var other := t.historical[id];
      if id != d.canonical.value && other.identity == t.admissions[d.subject] && ComesEarlier(other, chosen, t.saturates) {
        return false;
      }
      rest := rest - {id};
    }
    return true;
  }

  lemma DistinctNothing<T>(key: T -> Id)
    ensures DistinctBy(key, [])
  {
  }

  lemma ProducerDecides(t: Transition, d: Decision, byId: map<Id, Candidate>, producer: map<Id, Id>)
    requires IsProducerMap(producer, t.candidates) && d.disposition != NoProposal
    requires forall c :: c in t.candidates ==> c.id in byId && byId[c.id] == c
    requires forall id :: id in byId ==> byId[id] in t.candidates && byId[id].id == id
    ensures DecisionIsSound(t, d) <==>
            && d.candidate.Some? && d.candidate.value in byId
            && d.subject in producer && producer[d.subject] == d.candidate.value
            && Settled(t, d, byId[d.candidate.value])
  {
    hide Settled;
    if d.subject in producer {
      assert Lists(t.candidates, d.subject);
    }
  }

  method CheckDecision(t: Transition, d: Decision, byId: map<Id, Candidate>, producer: map<Id, Id>) returns (ok: bool)
    requires IsProducerMap(producer, t.candidates)
    requires forall c :: c in t.candidates ==> c.id in byId && byId[c.id] == c
    requires forall id :: id in byId ==> byId[id] in t.candidates && byId[id].id == id
    ensures ok <==> DecisionIsSound(t, d)
  {
    hide IsProducerMap;
    if d.disposition == NoProposal {
      return d.subject in t.sources && t.sources[d.subject].noProposal && d.candidate == None && d.produced == [];
    }
    ProducerDecides(t, d, byId, producer);
    if d.candidate == None || d.candidate.value !in byId {
      return false;
    }
    if d.subject !in producer || producer[d.subject] != d.candidate.value {
      return false;
    }
    ok := CheckSettlement(t, d, byId[d.candidate.value]);
  }

  method CheckSettlement(t: Transition, d: Decision, c: Candidate) returns (ok: bool)
    ensures ok <==> Settled(t, d, c)
  {
    hide Deduplicates;
    if d.subject !in t.provisionals {
      return false;
    }
    var p := t.provisionals[d.subject];
    if d.disposition != Deduplicated && p.disposition != d.disposition {
      return false;
    }
    if p.candidate != c.id || p.reason != d.reason || d.resolver != c.resolver || !d.policyIsCurrent {
      return false;
    }
    for i := 0 to |d.conflicts|
      invariant forall id :: id in d.conflicts[..i] ==> id in t.conflictSets
    {
      assert d.conflicts[i] in d.conflicts;
      if d.conflicts[i] !in t.conflictSets {
        return false;
      }
    }
    for i := 0 to |d.draws|
      invariant forall id :: id in d.draws[..i] ==> id in t.draws
    {
      assert d.draws[i] in d.draws;
      if d.draws[i] !in t.draws {
        return false;
      }
    }
    assert d.conflicts[..|d.conflicts|] == d.conflicts && d.draws[..|d.draws|] == d.draws;
    ok := CheckOutcome(t, d, c);
  }

  method CheckOutcome(t: Transition, d: Decision, c: Candidate) returns (ok: bool)
    ensures ok <==>
            match d.disposition
            case Commit => |d.produced| == c.drafts
            case Reject => d.produced == []
            case Defer => d.produced == [] && HasSuccessor(t, d)
            case Deduplicated => d.produced == [] && Deduplicates(t, d)
            case _ => true
  {
    match d.disposition {
      case Commit => return |d.produced| == c.drafts;
      case Reject => return d.produced == [];
      case Defer =>
        if d.produced != [] || d.successor == None {
          return false;
        }
        ok := SuccessorExists(t, d.successor.value, d.subject);
      case Deduplicated =>
        if d.produced != [] {
          return false;
        }
        ok := ValidDeduplication(t, d);
      case _ => return true;
    }
  }

  /** The decisions, taken from the map in whatever order it gives them, and how many defer. */
  method CheckDecisions(t: Transition, bySubject: map<Id, Decision>, byId: map<Id, Candidate>, producer: map<Id, Id>)
    returns (ok: bool, deferred: nat)
    requires IsProducerMap(producer, t.candidates)
    requires forall c :: c in t.candidates ==> c.id in byId && byId[c.id] == c
    requires forall id :: id in byId ==> byId[id] in t.candidates && byId[id].id == id
    requires forall d :: d in t.decisions ==> d.subject in bySubject && bySubject[d.subject] == d
    requires forall id :: id in bySubject ==> bySubject[id] in t.decisions && bySubject[id].subject == id
    ensures ok <==> forall d :: d in t.decisions ==> DecisionIsSound(t, d)
    ensures ok ==> deferred == |Deferred(t.decisions)|
  {
    hide IsProducerMap, DecisionIsSound;
    deferred := 0;
    ghost var counted: set<Id> := {};
    var rest := bySubject.Keys;
    while rest != {}
      invariant rest <= bySubject.Keys
      invariant forall id :: id in bySubject && id !in rest ==> DecisionIsSound(t, bySubject[id])
      invariant forall id :: id in counted <==> id in bySubject && id !in rest && bySubject[id].disposition == Defer
      invariant deferred == |counted|
    {
      var id :| id in rest;
      var sound := CheckDecision(t, bySubject[id], byId, producer);
      if !sound {
        return false, 0;
      }
      if bySubject[id].disposition == Defer {
        deferred, counted := deferred + 1, counted + {id};
      }
      rest := rest - {id};
    }
    assert counted == Deferred(t.decisions);
    ok := true;
  }

  /** Accepts exactly the transitions that partition the fence. */
  method Validate(t: Transition) returns (ok: bool)
    ensures ok <==> Accepted(t)
  {
    hide SourceMatches, CandidatesPartition, DecisionsCover, DecisionIsSound, Deferred, IsProducerMap;
    var units := CollectUnits(t.units);
    var matches := CheckSources(t, units);
    if !matches {
      return false;
    }
    var partition, byId, producer := CollectCandidates(t.candidates, units);
    if !partition {
      return false;
    }
    var cover, bySubject := CollectDecisions(t.decisions, units);
    if !cover {
      return false;
    }
    var sound, deferred := CheckDecisions(t, bySubject, byId, producer);
    if !sound {
      return false;
    }
    ok := |t.successors| == deferred;
  }

  // ----- what acceptance means -----

  /** Decisions and admitted identities are in bijection. */
  lemma DecisionsAreABijection(t: Transition)
    requires Accepted(t)
    ensures forall id :: id in UnitMap(t.units) ==> exists d :: d in t.decisions && d.subject == id
    ensures forall d :: d in t.decisions ==> d.subject in UnitMap(t.units)
    ensures forall i, j :: 0 <= i < j < |t.decisions| ==> t.decisions[i].subject != t.decisions[j].subject
  {
    hide CandidatesPartition, DecisionIsSound, Deferred;
    var units := UnitMap(t.units);
    Pigeonhole(SubjectOf, t.decisions);
    SameSizeSubset(KeySet(SubjectOf, t.decisions), units.Keys);
    forall id | id in units ensures exists d :: d in t.decisions && d.subject == id {
      assert id in KeySet(SubjectOf, t.decisions);
    }
    forall i, j | 0 <= i < j < |t.decisions| ensures t.decisions[i].subject != t.decisions[j].subject {
      assert SubjectOf(t.decisions[i]) != SubjectOf(t.decisions[j]);
    }
  }

  /** Every decision except NO_PROPOSAL names the one candidate that lists its unit. */
  lemma DecisionNamesItsCandidate(t: Transition, d: Decision)
    requires Accepted(t) && d in t.decisions
    ensures d.disposition == NoProposal ==> d.candidate == None && d.produced == []
    ensures d.disposition != NoProposal ==> exists c :: c in t.candidates && d.subject in c.units && d.candidate == Some(c.id)
    ensures forall c, c' :: c in t.candidates && c' in t.candidates ==> d.subject in c.units && d.subject in c'.units ==> c == c'
  {
    assert DecisionIsSound(t, d);
    forall c, c' | c in t.candidates && c' in t.candidates && d.subject in c.units && d.subject in c'.units ensures c == c' {
      assert c != c' ==> Apart(c, c');
    }
  }

  function ProvenanceOf(s: Successor): Id {
    s.provenance
  }

  /** Successors and DEFER decisions are in bijection, by counting alone: each deferring decision
      finds one with its provenance, and there are no more successors than that. */
  lemma SuccessorsAreABijection(t: Transition)
    requires Accepted(t)
    ensures forall i, j :: 0 <= i < j < |t.successors| ==> t.successors[i].provenance != t.successors[j].provenance
    ensures forall s :: s in t.successors ==>
              exists d :: d in t.decisions && d.disposition == Defer && d.subject == s.provenance && d.successor == Some(s.id)
    ensures forall d :: d in t.decisions && d.disposition == Defer ==>
              exists s :: s in t.successors && s.provenance == d.subject && d.successor == Some(s.id)
    ensures forall s :: s in t.successors ==> s.run == t.run && s.eligibility.Some? && AfterFence(t, s.eligibility.value)
  {
    hide Accepted, AfterFence, HasSuccessor, DistinctBy;
    ProvenancesAreTheDeferred(t);
    forall i, j | 0 <= i < j < |t.successors| ensures t.successors[i].provenance != t.successors[j].provenance {
      ProvenancesDiffer(t.successors, i, j);
    }
    forall s | s in t.successors
      ensures exists d :: d in t.decisions && d.disposition == Defer && d.subject == s.provenance && d.successor == Some(s.id)
      ensures s.run == t.run && s.eligibility.Some? && AfterFence(t, s.eligibility.value)
    {
      var d := TheDecisionOf(t, s);
    }
    forall d | d in t.decisions && d.disposition == Defer
      ensures exists s :: s in t.successors && s.provenance == d.subject && d.successor == Some(s.id)
    {
      var s := TheSuccessorOf(t, d);
    }
  }

  lemma ProvenancesDiffer(successors: seq<Successor>, i: nat, j: nat)
    requires DistinctBy(ProvenanceOf, successors) && i < j < |successors|
    ensures successors[i].provenance != successors[j].provenance
  {
    assert ProvenanceOf(successors[i]) != ProvenanceOf(successors[j]);
  }

  lemma ProvenancesAreTheDeferred(t: Transition)
    requires Accepted(t)
    ensures KeySet(ProvenanceOf, t.successors) == Deferred(t.decisions)
    ensures DistinctBy(ProvenanceOf, t.successors)
  {
    hide CandidatesPartition, DecisionsCover, SourceMatches, DecisionIsSound, DistinctBy;
    var names := KeySet(ProvenanceOf, t.successors);
    forall d | d in t.decisions && d.disposition == Defer ensures d.subject in names {
      var s := TheSuccessorOf(t, d);
      assert ProvenanceOf(s) in names;
    }
    Pigeonhole(ProvenanceOf, t.successors);
    SubsetIsSmaller(Deferred(t.decisions), names);
    SameSizeSubset(Deferred(t.decisions), names);
  }

  lemma TheSuccessorOf(t: Transition, d: Decision) returns (s: Successor)
    requires Accepted(t) && d in t.decisions && d.disposition == Defer
    ensures s in t.successors && s.provenance == d.subject && s.run == t.run && d.successor == Some(s.id)
    ensures s.eligibility.Some? && AfterFence(t, s.eligibility.value)
  {
    hide AfterFence;
    DeferringHasSuccessor(t, d);
    s := FirstSuccessor(t.successors, d.successor.value, d.subject, t.run).value;
  }

  lemma TheDecisionOf(t: Transition, s: Successor) returns (d: Decision)
    requires Accepted(t) && s in t.successors
    ensures d in t.decisions && d.disposition == Defer && d.subject == s.provenance && d.successor == Some(s.id)
    ensures s.run == t.run && s.eligibility.Some? && AfterFence(t, s.eligibility.value)
  {
    hide Accepted, AfterFence, DistinctBy;
    ProvenancesAreTheDeferred(t);
    assert ProvenanceOf(s) in KeySet(ProvenanceOf, t.successors);
    d :| d in t.decisions && d.disposition == Defer && d.subject == s.provenance;
    var found := TheSuccessorOf(t, d);
    SameProvenance(t.successors, s, found);
  }

  lemma SameProvenance(successors: seq<Successor>, s: Successor, s': Successor)
    requires DistinctBy(ProvenanceOf, successors)
    requires s in successors && s' in successors && s.provenance == s'.provenance
    ensures s == s'
  {
    var i :| 0 <= i < |successors| && successors[i] == s;
    var j :| 0 <= j < |successors| && successors[j] == s';
    assert ProvenanceOf(successors[i]) == ProvenanceOf(successors[j]);
  }

  lemma DeferringHasSuccessor(t: Transition, d: Decision)
    requires Accepted(t) && d in t.decisions && d.disposition == Defer
    ensures HasSuccessor(t, d)
  {
    assert DecisionIsSound(t, d);
  }

  // ----- what the comparison with the fence is worth -----

  function FencePlace(t: Transition): Place {
    (t.instant, t.ordinal)
  }

  lemma AfterFenceReadsLater(t: Transition, e: Place)
    ensures Reading(t.ordinal, t.saturates) != MAX_U64 ==> (AfterFence(t, e) <==> ReadsLater(e, FencePlace(t), t.saturates))
    ensures Reading(t.ordinal, t.saturates) == MAX_U64 ==>
              (AfterFence(t, e) <==> Reading(e.0, t.saturates) >= Reading(t.instant, t.saturates))
  {
  }

  /** The fences after which only later successors are accepted. */
  predicate IsSafeFence(t: Transition) {
    IsSafeLimit(FencePlace(t), t.saturates) && Reading(t.ordinal, t.saturates) != MAX_U64
  }

  /** Whatever is accepted comes strictly after the fence exactly when the fence's instant is read as
      a positive number, and its ordinal is read, without being the largest, or below one. */
  lemma SuccessorCheckIsSoundExactly(t: Transition)
    ensures (forall e: Place :: AfterFence(t, e) ==> IsLater(e, FencePlace(t))) <==> IsSafeFence(t)
  {
    hide Reading, AfterFence, IsSafeLimit;
    forall e: Place
      ensures Reading(t.ordinal, t.saturates) != MAX_U64 ==> (AfterFence(t, e) <==> ReadsLater(e, FencePlace(t), t.saturates))
    {
      AfterFenceReadsLater(t, e);
    }
    LimitIsSafeExactly(FencePlace(t), t.saturates);
    if Reading(t.ordinal, t.saturates) == MAX_U64 {
      LargestOrdinalIsUnsafe(t);
    }
  }

  lemma LargestOrdinalIsUnsafe(t: Transition)
    requires Reading(t.ordinal, t.saturates) == MAX_U64
    ensures AfterFence(t, (t.instant, Number(0.0))) && !IsLater((t.instant, Number(0.0)), FencePlace(t))
  {
  }

  /** No successor of natural numbers that comes after the fence is refused exactly when the fence
      has no negative number, or its ordinal is read as the largest. */
  lemma SuccessorCheckIsCompleteExactly(t: Transition)
    ensures (forall e: Place :: IsRead(e.0, t.saturates) && IsRead(e.1, t.saturates) && IsLater(e, FencePlace(t)) ==> AfterFence(t, e))
       <==> IsCompleteLimit(FencePlace(t), t.saturates) || Reading(t.ordinal, t.saturates) == MAX_U64
  {
    hide Reading, AfterFence, IsLater, IsCompleteLimit, ReadsLater;
    LimitIsCompleteExactly(FencePlace(t), t.saturates);
    forall e: Place
      ensures Reading(t.ordinal, t.saturates) != MAX_U64 ==> (AfterFence(t, e) <==> ReadsLater(e, FencePlace(t), t.saturates))
      ensures Reading(t.ordinal, t.saturates) == MAX_U64 && IsRead(e.0, t.saturates) && IsLater(e, FencePlace(t)) ==> AfterFence(t, e)
    {
      AfterFenceReadsLater(t, e);
      if IsRead(e.0, t.saturates) && IsLater(e, FencePlace(t)) {
        LaterInstantsReadNoLess(e, t);
      }
    }
  }

  lemma LaterInstantsReadNoLess(e: Place, t: Transition)
    requires IsRead(e.0, t.saturates) && IsLater(e, FencePlace(t))
    ensures Reading(e.0, t.saturates) >= Reading(t.instant, t.saturates)
  {
    if IsRead(t.instant, t.saturates) {
      ReadingsCompare(e.0, t.instant, t.saturates);
    }
  }

  /** Between a fence and a successor of natural numbers below 2^64 the check is right. */
  lemma NaturalSuccessorsAreChecked(t: Transition, e: Place)
    requires IsRead(e.0, t.saturates) && IsRead(e.1, t.saturates) && IsRead(t.instant, t.saturates) && IsRead(t.ordinal, t.saturates)
    ensures Reading(t.ordinal, t.saturates) != MAX_U64 ==> (AfterFence(t, e) <==> IsLater(e, FencePlace(t)))
  {
    hide Reading, AfterFence, IsLater, ReadsLater;
    NaturalPlacesCompare(e, FencePlace(t), t.saturates);
    AfterFenceReadsLater(t, e);
  }

  /** An accepted successor comes strictly after a safe fence, and after any fence of natural numbers
      if it is one of natural numbers itself. */
  lemma SuccessorsComeAfter(t: Transition, s: Successor)
    requires Accepted(t) && s in t.successors
    ensures s.eligibility.Some?
    ensures IsSafeFence(t) ==> IsLater(s.eligibility.value, FencePlace(t))
    ensures var e := s.eligibility.value;
            (&& IsRead(e.0, t.saturates) && IsRead(e.1, t.saturates) && IsRead(t.instant, t.saturates) && IsRead(t.ordinal, t.saturates)
             && Reading(t.ordinal, t.saturates) != MAX_U64) ==> IsLater(e, FencePlace(t))
  {
    hide Accepted, FirstSuccessor, Settled, Reading, AfterFence, IsLater, IsRead, IsSafeLimit;
    SuccessorsAreABijection(t);
    SuccessorCheckIsSoundExactly(t);
    var e := s.eligibility.value;
    if IsRead(e.0, t.saturates) && IsRead(e.1, t.saturates) && IsRead(t.instant, t.saturates) && IsRead(t.ordinal, t.saturates) {
      NaturalSuccessorsAreChecked(t, e);
    }
  }

  /** A whole transition that is accepted: one unit deferred at instant 0, ordinal 3, to a successor
      seven earlier. */
  function Misdated(saturates: bool): Transition {
    var unit, digest, candidate, successor: Id, run: Id := [1], [2], [3], [4], [5];
    Transition([Unit(unit, digest)], map[unit := Source(false, digest, digest)], [Candidate(candidate, [unit], [], 1)],
               [Decision(unit, Defer, Some(candidate), [], [], [], true, [], [], Some(successor), None)],
               map[unit := Provisional(Defer, candidate, [])], {}, {},
               [Successor(successor, run, unit, Some(Small(-7, 5)))],
               run, Number(0.0), Number(3.0), map[], map[], saturates)
  }

  lemma EarlierSuccessorIsAccepted(saturates: bool)
    ensures Accepted(Misdated(saturates))
    ensures forall s :: s in Misdated(saturates).successors ==>
              s.eligibility == Some(Small(-7, 5)) && !IsLater(Small(-7, 5), FencePlace(Misdated(saturates)))
  {
    hide CandidatesPartition, DecisionsCover, DecisionIsSound, SourceMatches, UnitMap, ReadsLater, IsLater;
    NegativeInstantsAreMisread(saturates);
    MisdatedPartition(saturates);
    MisdatedDecision(saturates);
  }

  lemma MisdatedPartition(saturates: bool)
    ensures var t := Misdated(saturates); var units := UnitMap(t.units);
            && (forall id :: id in units ==> SourceMatches(t, units[id]))
            && CandidatesPartition(t.candidates, units) && DecisionsCover(t.decisions, units)
  {
    var t := Misdated(saturates);
    assert UnitMap(t.units) == map[t.units[0].id := t.units[0]];
  }

  lemma MisdatedDecision(saturates: bool)
    ensures var t := Misdated(saturates); DecisionIsSound(t, t.decisions[0]) && Deferred(t.decisions) == {t.decisions[0].subject}
  {
    hide Reading, AfterFence, ReadsLater, IsLater;
    var t := Misdated(saturates);
    var c, d := t.candidates[0], t.decisions[0];
    assert FirstSuccessor(t.successors, [4], [1], [5]) == Some(t.successors[0]);
    MisdatedIsAfter(saturates);
    assert HasSuccessor(t, d);
    assert c in t.candidates && d.subject in c.units && Settled(t, d, c);
    assert Deferred(t.decisions) == {d.subject};
  }

  lemma MisdatedIsAfter(saturates: bool)
    ensures AfterFence(Misdated(saturates), Small(-7, 5))
  {
  }

  // ----- deduplication -----

  /** Two accepted deduplications of the same idempotency identity point to the same position, unless
      the one that counts as earlier cannot be read. */
  lemma DeduplicationIsCanonical(t: Transition, d: Decision, e: Decision)
    requires Deduplicates(t, d) && Deduplicates(t, e)
    requires t.admissions[d.subject] == t.admissions[e.subject]
    ensures var a, b := t.historical[d.canonical.value], t.historical[e.canonical.value];
            && (PositionLess(Position(a, t.saturates), Position(b, t.saturates)) ==> !IsPlaced(a, t.saturates))
            && (PositionLess(Position(b, t.saturates), Position(a, t.saturates)) ==> !IsPlaced(b, t.saturates))
            && (IsPlaced(a, t.saturates) && IsPlaced(b, t.saturates) ==> Position(a, t.saturates) == Position(b, t.saturates))
  {
    var a, b := t.historical[d.canonical.value], t.historical[e.canonical.value];
    assert !ComesEarlier(a, b, t.saturates) && !ComesEarlier(b, a, t.saturates);
  }

  /** A record a deduplication of the identity may point to: nothing of that identity comes earlier. */
  ghost predicate CanBeChosen(t: Transition, identity: Bytes, id: Id) {
    && IsRecord(t, identity, id)
    && forall other :: other in t.historical && t.historical[other].identity == identity ==>
                         !ComesEarlier(t.historical[other], t.historical[id], t.saturates)
  }

  /** A record of the identity in which neither number is missing. */
  predicate IsRecord(t: Transition, identity: Bytes, id: Id) {
    id in t.historical && t.historical[id].identity == identity && t.historical[id].firstFence.Some? && t.historical[id].index.Some?
  }

  function PositionOf(t: Transition, identity: Bytes, id: Id): (U64, U64)
    requires IsRecord(t, identity, id)
  {
    Position(t.historical[id], t.saturates)
  }

  /** Some unit of the identity other than the record's own, so that a decision can point to it. */
  ghost predicate CanBeNamed(t: Transition, identity: Bytes, id: Id) {
    exists subject :: subject in t.admissions && t.admissions[subject] == identity && subject != id
  }

  ghost predicate IsOf(t: Transition, identity: Bytes, d: Decision) {
    Deduplicates(t, d) && t.admissions[d.subject] == identity
  }

  /** A deduplication names a record that can be chosen, and every such record can be named. */
  lemma DeduplicationsChoose(t: Transition, identity: Bytes, d: Decision)
    ensures IsOf(t, identity, d) <==>
              && d.subject in t.admissions && t.admissions[d.subject] == identity
              && d.canonical.Some? && d.canonical.value != d.subject && CanBeChosen(t, identity, d.canonical.value)
  {
  }

  lemma NamedBy(t: Transition, identity: Bytes, id: Id) returns (d: Decision)
    requires CanBeChosen(t, identity, id) && CanBeNamed(t, identity, id)
    ensures IsOf(t, identity, d) && d.canonical == Some(id)
  {
    hide CanBeChosen, Deduplicates;
    var subject :| subject in t.admissions && t.admissions[subject] == identity && subject != id;
    d := Decision(subject, Deduplicated, None, [], [], [], true, [], [], None, Some(id));
    DeduplicationsChoose(t, identity, d);
  }

  ghost predicate PointAlike(t: Transition, d: Decision, e: Decision)
    requires Deduplicates(t, d) && Deduplicates(t, e)
  {
    Position(t.historical[d.canonical.value], t.saturates) == Position(t.historical[e.canonical.value], t.saturates)
  }

  /** A record after an unreadable one is behind a readable one too, if both can be named. */
  ghost predicate IsUnambiguous(t: Transition, identity: Bytes) {
    forall u, w ::
      (&& IsRecord(t, identity, u) && CanBeNamed(t, identity, u) && !IsPlaced(t.historical[u], t.saturates)
       && IsRecord(t, identity, w) && CanBeNamed(t, identity, w)
       && PositionLess(PositionOf(t, identity, u), PositionOf(t, identity, w)))
      ==> IsBehind(t, identity, w)
  }

  /** A readable record of the identity comes earlier. */
  ghost predicate IsBehind(t: Transition, identity: Bytes, w: Id)
    requires IsRecord(t, identity, w)
  {
    exists p :: IsRecord(t, identity, p) && ComesEarlier(t.historical[p], t.historical[w], t.saturates)
  }

  lemma ChosenIsNotBehind(t: Transition, identity: Bytes, id: Id)
    requires IsRecord(t, identity, id)
    ensures CanBeChosen(t, identity, id) <==> !IsBehind(t, identity, id)
  {
    if !CanBeChosen(t, identity, id) {
      var p :| p in t.historical && t.historical[p].identity == identity
               && ComesEarlier(t.historical[p], t.historical[id], t.saturates);
      assert IsRecord(t, identity, p);
    }
  }

  /** All deduplications of an identity point to one position exactly when no unreadable record of it
      stands before one that nothing readable precedes. */
  lemma DeduplicationIsUniqueExactly(t: Transition, identity: Bytes)
    ensures (forall d, e :: IsOf(t, identity, d) && IsOf(t, identity, e) ==> PointAlike(t, d, e)) <==> IsUnambiguous(t, identity)
  {
    hide CanBeChosen, Deduplicates, IsPlaced, Position, CanBeNamed, IsBehind;
    if IsUnambiguous(t, identity) {
      forall d, e | IsOf(t, identity, d) && IsOf(t, identity, e) ensures PointAlike(t, d, e) {
        UnambiguousPointAlike(t, identity, d, e);
      }
    } else {
      var u, w := Ambiguity(t, identity);
      var d := NamedBy(t, identity, u);
      var e := NamedBy(t, identity, w);
      assert !PointAlike(t, d, e);
    }
  }

  lemma UnambiguousPointAlike(t: Transition, identity: Bytes, d: Decision, e: Decision)
    requires IsUnambiguous(t, identity) && IsOf(t, identity, d) && IsOf(t, identity, e)
    ensures PointAlike(t, d, e)
  {
    hide IsPlaced, Position, IsBehind, IsUnambiguous, CanBeNamed;
    DeduplicationsChoose(t, identity, d);
    DeduplicationsChoose(t, identity, e);
    var a, b := d.canonical.value, e.canonical.value;
    assert CanBeNamed(t, identity, a) && CanBeNamed(t, identity, b) by {
      NameShows(t, identity, d.subject, a);
      NameShows(t, identity, e.subject, b);
    }
    InOrder(t, identity, a, b);
    InOrder(t, identity, b, a);
  }

  lemma NameShows(t: Transition, identity: Bytes, subject: Id, id: Id)
    requires subject in t.admissions && t.admissions[subject] == identity && subject != id
    ensures CanBeNamed(t, identity, id)
  {
  }

  lemma InOrder(t: Transition, identity: Bytes, a: Id, b: Id)
    requires IsUnambiguous(t, identity) && CanBeChosen(t, identity, a) && CanBeChosen(t, identity, b)
    requires CanBeNamed(t, identity, a) && CanBeNamed(t, identity, b)
    ensures !PositionLess(PositionOf(t, identity, a), PositionOf(t, identity, b))
  {
    hide Position, IsBehind, CanBeNamed, IsPlaced;
    ChosenIsNotBehind(t, identity, b);
    if IsPlaced(t.historical[a], t.saturates) {
      NotEarlier(t, identity, a, b);
    }
  }

  lemma NotEarlier(t: Transition, identity: Bytes, a: Id, b: Id)
    requires IsRecord(t, identity, a) && CanBeChosen(t, identity, b) && IsPlaced(t.historical[a], t.saturates)
    ensures !PositionLess(PositionOf(t, identity, a), PositionOf(t, identity, b))
  {
    assert !ComesEarlier(t.historical[a], t.historical[b], t.saturates);
  }

  lemma Ambiguity(t: Transition, identity: Bytes) returns (u: Id, w: Id)
    requires !IsUnambiguous(t, identity)
    ensures CanBeChosen(t, identity, u) && CanBeNamed(t, identity, u)
    ensures CanBeChosen(t, identity, w) && CanBeNamed(t, identity, w)
    ensures PositionLess(PositionOf(t, identity, u), PositionOf(t, identity, w))
  {
    hide IsPlaced, Position, CanBeNamed, CanBeChosen;
    u, w :|
      && IsRecord(t, identity, u) && CanBeNamed(t, identity, u) && !IsPlaced(t.historical[u], t.saturates)
      && IsRecord(t, identity, w) && CanBeNamed(t, identity, w)
      && PositionLess(PositionOf(t, identity, u), PositionOf(t, identity, w)) && !IsBehind(t, identity, w);
    ChosenIsNotBehind(t, identity, w);
    ChosenIsNotBehind(t, identity, u);
  }

  // ----- the same told by the records -----

  ghost predicate AllNamed(t: Transition, identity: Bytes) {
    forall id :: IsRecord(t, identity, id) ==> CanBeNamed(t, identity, id)
  }

  /** A readable record stands at the unreadable one or before it. */
  ghost predicate IsSettled(t: Transition, identity: Bytes, u: Id)
    requires IsRecord(t, identity, u)
  {
    exists p :: IsReadable(t, identity, p) && !PositionLess(PositionOf(t, identity, u), PositionOf(t, identity, p))
  }

  predicate IsReadable(t: Transition, identity: Bytes, id: Id) {
    IsRecord(t, identity, id) && IsPlaced(t.historical[id], t.saturates)
  }

  ghost predicate StandAlike(t: Transition, identity: Bytes) {
    forall a, b :: IsRecord(t, identity, a) && IsRecord(t, identity, b) ==> PositionOf(t, identity, a) == PositionOf(t, identity, b)
  }

  /** Where a unit without a record of its own has the identity, this is so exactly when every
      unreadable record has a readable one at its position or before it, or all of them stand at one
      position. */
  lemma UnambiguousRecords(t: Transition, identity: Bytes)
    requires AllNamed(t, identity)
    ensures IsUnambiguous(t, identity) <==>
              || (forall u :: IsRecord(t, identity, u) && !IsReadable(t, identity, u) ==> IsSettled(t, identity, u))
              || StandAlike(t, identity)
  {
    hide Position, IsPlaced, CanBeNamed, IsBehind;
    if forall u :: IsRecord(t, identity, u) && !IsReadable(t, identity, u) ==> IsSettled(t, identity, u) {
      SettledIsUnambiguous(t, identity);
    } else if !StandAlike(t, identity) {
      var u :| IsRecord(t, identity, u) && !IsReadable(t, identity, u) && !IsSettled(t, identity, u);
      UnsettledIsAmbiguous(t, identity, u);
    }
  }

  lemma SettledIsUnambiguous(t: Transition, identity: Bytes)
    requires forall u :: IsRecord(t, identity, u) && !IsReadable(t, identity, u) ==> IsSettled(t, identity, u)
    ensures IsUnambiguous(t, identity)
  {
    hide Position, IsPlaced, CanBeNamed, IsBehind;
    forall u, w | && IsRecord(t, identity, u) && !IsPlaced(t.historical[u], t.saturates) && IsRecord(t, identity, w)
                  && PositionLess(PositionOf(t, identity, u), PositionOf(t, identity, w))
      ensures IsBehind(t, identity, w)
    {
      assert IsSettled(t, identity, u);
      var p :| IsReadable(t, identity, p) && !PositionLess(PositionOf(t, identity, u), PositionOf(t, identity, p));
      BehindShows(t, identity, p, w);
    }
  }

  lemma BehindShows(t: Transition, identity: Bytes, p: Id, w: Id)
    requires IsReadable(t, identity, p) && IsRecord(t, identity, w)
    requires PositionLess(PositionOf(t, identity, p), PositionOf(t, identity, w))
    ensures IsBehind(t, identity, w)
  {
    assert ComesEarlier(t.historical[p], t.historical[w], t.saturates);
  }

  lemma SomethingIsReadable(t: Transition, identity: Bytes, w: Id)
    requires IsRecord(t, identity, w) && IsBehind(t, identity, w)
    ensures exists p :: IsReadable(t, identity, p)
  {
    var p :| IsRecord(t, identity, p) && ComesEarlier(t.historical[p], t.historical[w], t.saturates);
    assert IsReadable(t, identity, p);
  }

  lemma UnsettledIsAmbiguous(t: Transition, identity: Bytes, u: Id)
    requires AllNamed(t, identity) && !StandAlike(t, identity)
    requires IsRecord(t, identity, u) && !IsReadable(t, identity, u) && !IsSettled(t, identity, u)
    ensures !IsUnambiguous(t, identity)
  {
    hide Position, CanBeNamed;
    if p :| IsReadable(t, identity, p) {
      var w := First(t, identity, t.historical.Keys, p);
      assert PositionLess(PositionOf(t, identity, u), PositionOf(t, identity, w));
      assert !IsBehind(t, identity, w);
    } else {
      forall w | IsRecord(t, identity, w) ensures !IsBehind(t, identity, w) && !IsPlaced(t.historical[w], t.saturates) {
        assert !IsReadable(t, identity, w);
        if IsBehind(t, identity, w) {
          SomethingIsReadable(t, identity, w);
        }
      }
      var a, b :| IsRecord(t, identity, a) && IsRecord(t, identity, b) && PositionOf(t, identity, a) != PositionOf(t, identity, b);
      var v, w := if PositionLess(PositionOf(t, identity, a), PositionOf(t, identity, b)) then a else b,
                  if PositionLess(PositionOf(t, identity, a), PositionOf(t, identity, b)) then b else a;
      assert PositionLess(PositionOf(t, identity, v), PositionOf(t, identity, w));
    }
  }

  /** The first readable record of a set that has one. */
  lemma {:induction false} First(t: Transition, identity: Bytes, ids: set<Id>, some: Id) returns (first: Id)
    requires some in ids && IsReadable(t, identity, some)
    ensures IsReadable(t, identity, first)
    ensures forall p :: p in ids && IsReadable(t, identity, p) ==> !PositionLess(PositionOf(t, identity, p), PositionOf(t, identity, first))
    decreases |ids|
  {
    hide Position, IsPlaced;
    if p :| p in ids && IsReadable(t, identity, p) && PositionLess(PositionOf(t, identity, p), PositionOf(t, identity, some)) {
      first := First(t, identity, ids - {some}, p);
    } else {
      first := some;
    }
  }

  // ----- two canonical units -----

  const AT_TWO := Historical([9], Some(Number(2.0)), Some(Number(1.0)))
  const AT_MINUS_ONE := Historical([9], Some(Number(-1.0)), Some(Number(1.0)))

  /** Two units of one identity that point to two earlier ones, of which one is numbered -1. */
  function Doubled(saturates: bool): Transition {
    var unit, other, digest, candidate: Id, run: Id := [1], [8], [2], [3], [5];
    Transition([Unit(unit, digest), Unit(other, digest)],
               map[unit := Source(false, digest, digest), other := Source(false, digest, digest)],
               [Candidate(candidate, [unit, other], [], 1)],
               [Decision(unit, Deduplicated, Some(candidate), [], [], [], true, [], [], None, Some([6])),
                Decision(other, Deduplicated, Some(candidate), [], [], [], true, [], [], None, Some([7]))],
               map[unit := Provisional(Commit, candidate, []), other := Provisional(Commit, candidate, [])], {}, {}, [],
               run, Number(0.0), Number(3.0),
               map[[6] := AT_TWO, [7] := AT_MINUS_ONE],
               map[unit := [9], other := [9]], saturates)
  }

  /** A whole transition that is accepted although its two deduplications of one identity point to
      different positions. */
  lemma TwoCanonicalUnitsAreAccepted(saturates: bool)
    ensures var t := Doubled(saturates);
            && Accepted(t) && |t.decisions| == 2
            && IsOf(t, [9], t.decisions[0]) && IsOf(t, [9], t.decisions[1]) && !PointAlike(t, t.decisions[0], t.decisions[1])
  {
    hide CandidatesPartition, DecisionsCover, DecisionIsSound, SourceMatches, Deduplicates, UnitMap;
    DoubledUnits(saturates);
    DoubledPartition(saturates);
    DoubledDecisions(saturates);
    DoubledPositions(saturates);
  }

  lemma DoubledUnits(saturates: bool)
    ensures var t := Doubled(saturates);
            && UnitMap(t.units) == map[[1] := t.units[0], [8] := t.units[1]]
            && forall id :: id in UnitMap(t.units) ==> SourceMatches(t, UnitMap(t.units)[id])
  {
    var t := Doubled(saturates);
    assert UnitMap(t.units[..1]) == map[[1] := t.units[0]];
  }

  lemma DoubledPartition(saturates: bool)
    ensures var t := Doubled(saturates);
            CandidatesPartition(t.candidates, UnitMap(t.units)) && DecisionsCover(t.decisions, UnitMap(t.units))
  {
    hide UnitMap;
    DoubledUnits(saturates);
    var t := Doubled(saturates);
    assert |UnitMap(t.units)| == 2;
  }

  lemma NeitherComesEarlier(saturates: bool)
    ensures Position(AT_TWO, saturates) == (2, 1) && Position(AT_MINUS_ONE, saturates) == (0, 1)
    ensures forall a, b :: a in {AT_TWO, AT_MINUS_ONE} && b in {AT_TWO, AT_MINUS_ONE} ==> !ComesEarlier(a, b, saturates)
  {
  }

  lemma DoubledPositions(saturates: bool)
    ensures var t := Doubled(saturates);
            && IsOf(t, [9], t.decisions[0]) && IsOf(t, [9], t.decisions[1]) && !PointAlike(t, t.decisions[0], t.decisions[1])
  {
    hide ComesEarlier, Position;
    NeitherComesEarlier(saturates);
    var t := Doubled(saturates);
    forall id | id in t.historical ensures t.historical[id] in {AT_TWO, AT_MINUS_ONE} {
      assert id == [6] || id == [7];
    }
  }

  lemma DoubledDecisions(saturates: bool)
    ensures var t := Doubled(saturates);
            (forall d :: d in t.decisions ==> DecisionIsSound(t, d)) && Deferred(t.decisions) == {}
  {
    hide Deduplicates;
    DoubledPositions(saturates);
    var t := Doubled(saturates);
    var c := t.candidates[0];
    forall d | d in t.decisions ensures DecisionIsSound(t, d) {
      assert c in t.candidates && d.subject in c.units && Settled(t, d, c);
    }
  }
}

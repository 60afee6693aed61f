/** Who gets the resource. The kernel sums the requests itself and asks the conflict detector as
    well; its check that the two agree can never fail. */
module Allocation {
  import opened Bytes
  import opened Domain
  import opened Sorting
  import opened Claims
  import opened Resolver
  import P = ClaimProperties

  // ----- candidates -----

  function ClaimOn(s: Snapshot, amount: Quantity): Claim {
    Claim(s.resource, 1, Signed(amount))
  }

  function CandidateOf(s: Snapshot, id: Bytes, amount: Quantity): Candidate {
    Candidate(id, true, [ClaimOn(s, amount)], [], [], [NONNEGATIVE])
  }

  function AmountOf(c: Candidate): nat
    requires |c.claims| == 1
  {
    Units(c.claims[0])
  }

  function IdOf(c: Candidate): Bytes {
    c.id
  }

  /** The candidates of the viable requests, in fence order. */
  function Candidates(s: Snapshot, prepared: seq<Prepared>, candidateOf: Bytes -> Bytes): seq<Candidate> {
    if prepared == [] then []
    else
      var last, before := prepared[|prepared| - 1], Candidates(s, prepared[..|prepared| - 1], candidateOf);
      if last.standing.Viable? then before + [CandidateOf(s, candidateOf(last.id), last.standing.amount)] else before
  }

  /** What allocation may rely on: distinct candidates, each claiming no more than there is. */
  ghost predicate Contenders(s: Snapshot, candidates: seq<Candidate>) {
    && s.available >= 0 && MachineId(s.resource)
    && DistinctBy(IdOf, candidates)
    && forall c :: c in candidates ==> exists q: Quantity :: q <= s.available && c == CandidateOf(s, c.id, q)
  }

  ghost predicate IsEven(s: Snapshot, candidates: seq<Candidate>) {
    && |candidates| == 2
    && Total(candidates, s.resource) <= MAX_I64
    && forall c :: c in candidates ==> |c.claims| == 1 && AmountOf(c) == s.available
  }

  function Capacity(s: Snapshot): map<Bytes, I64> {
    map[s.resource := s.available]
  }

  predicate CandidateLess(a: Candidate, b: Candidate) {
    Less(a.id, b.id)
  }

  lemma CandidatesAreOrdered()
    ensures Orders(CandidateLess, IdOf)
  {
    BytesAreOrdered();
    forall x, y ensures !CandidateLess(x, y) && !CandidateLess(y, x) <==> IdOf(x) == IdOf(y) {
      LessIrreflexive(x.id);
      LessTotal(x.id, y.id);
    }
    forall x, y, z | CandidateLess(x, y) && CandidateLess(y, z) ensures CandidateLess(x, z) {
      LessTransitive(x.id, y.id, z.id);
    }
    forall x ensures !CandidateLess(x, x) {
      LessIrreflexive(x.id);
    }
  }

  // ----- what the detector can say about such candidates -----

  lemma NonnegativeIsAName()
    ensures MachineId(NONNEGATIVE)
  {
    forall i | 0 <= i < |NONNEGATIVE|
      ensures || IsAlphanumeric(NONNEGATIVE[i])
              || (NONNEGATIVE[i] in {0x2e, 0x5f, 0x3a, 0x2f, 0x2d} && i + 1 < |NONNEGATIVE| && IsAlphanumeric(NONNEGATIVE[i + 1]))
    {
    }
  }

  lemma ClaimedByOne(s: Snapshot, c: Candidate, q: Quantity)
    requires c == CandidateOf(s, c.id, q)
    ensures ClaimOn(s, q) in c.claims
    ensures Claimed(c.claims, s.resource) == q && AmountOf(c) == q
    ensures forall r :: r != s.resource ==> Claimed(c.claims, r) == 0
    ensures forall r :: Mentions(c, Resource, r) <==> r == s.resource
    ensures forall n :: Mentions(c, Invariants, n) <==> n == NONNEGATIVE
    ensures forall n :: !Mentions(c, Writes, n)
  {
    assert c.claims[..0] == [];
    assert ClaimOn(s, q) in c.claims;
  }

  /** Detection fails only by its guard, exactly when the total leaves the `int64` range. */
  lemma DetectorFailsOnOverflow(s: Snapshot, candidates: seq<Candidate>)
    requires Contenders(s, candidates)
    ensures DetectFailure(candidates, Capacity(s)) == if Total(candidates, s.resource) > MAX_I64 then Some(Indeterminate) else None
  {
    hide DetectFailure, ScanFailure, Total, Claimed, MachineId, ClaimIsSound;
    var resources := Capacity(s);
    NonnegativeIsAName();
    ContendersAreSound(s, candidates);
    P.DetectionSucceeds(candidates, resources);
    P.GuardFiresOnOverflow(candidates, resources);
    ScanDecides(candidates, resources);
    if candidates == [] {
      NothingIsWanted(s);
    } else {
      var c := candidates[0];
      assert c in candidates;
      var q: Quantity :| c == CandidateOf(s, c.id, q);
      ClaimedByOne(s, c, q);
    }
  }

  lemma NothingIsWanted(s: Snapshot)
    ensures Total([], s.resource) == 0
  {
  }

  lemma ContendersAreSound(s: Snapshot, candidates: seq<Candidate>)
    requires Contenders(s, candidates)
    ensures P.DistinctIds(candidates) && P.AllSound(candidates, Capacity(s))
    ensures P.WithinRange(candidates) <==> candidates == [] || Total(candidates, s.resource) <= MAX_I64
    ensures P.Acceptable(candidates, Capacity(s)) <==> P.WithinRange(candidates)
  {
    hide Total, Claimed, MachineId;
    NonnegativeIsAName();
    forall i, j | 0 <= i < j < |candidates| ensures candidates[i].id != candidates[j].id {
      assert IdOf(candidates[i]) != IdOf(candidates[j]);
    }
    forall c, k | c in candidates && k in c.claims
      ensures k.resource == s.resource && ClaimIsSound(k, Capacity(s)) && Capacity(s)[k.resource] >= 0
    {
      var q: Quantity :| c == CandidateOf(s, c.id, q);
    }
    if candidates != [] {
      var c := candidates[0];
      assert c in candidates;
      var q: Quantity :| c == CandidateOf(s, c.id, q);
      ClaimedByOne(s, c, q);
    }
  }

  function ResourceKey(s: Snapshot): Key {
    Key(RESOURCE_CONFLICT, s.resource)
  }

  lemma EveryoneClaims(s: Snapshot, candidates: seq<Candidate>)
    requires Contenders(s, candidates)
    ensures forall id :: id in Users(candidates, Resource, s.resource) <==> exists c :: c in candidates && c.id == id
    ensures forall r :: r != s.resource ==> Users(candidates, Resource, r) == {}
    ensures forall n :: Users(candidates, Writes, n) == {}
    ensures forall n :: n != NONNEGATIVE ==> Users(candidates, Invariants, n) == {}
  {
    hide Claimed, MachineId;
    forall c | c in candidates
      ensures forall r :: Mentions(c, Resource, r) <==> r == s.resource
      ensures forall n :: (Mentions(c, Invariants, n) ==> n == NONNEGATIVE) && !Mentions(c, Writes, n)
    {
      var q: Quantity :| c == CandidateOf(s, c.id, q);
      ClaimedByOne(s, c, q);
    }
  }

  /** Conflicts are about the resource, or about the invariant every candidate declares. */
  lemma OnlyTwoKinds(s: Snapshot, candidates: seq<Candidate>, derive: (seq<Bytes>, Key) -> Bytes, c: Conflict)
    requires Contenders(s, candidates) && IsConflict(candidates, Capacity(s), derive, c)
    ensures c.key == ResourceKey(s) || c.key == Key(INVARIANT_CONFLICT, NONNEGATIVE)
    ensures c.key == ResourceKey(s) ==>
              Total(candidates, s.resource) > s.available && forall id :: id in c.members <==> exists x :: x in candidates && x.id == id
  {
    hide Total, MachineId, Less, Contenders, StrictlySorted;
    EveryoneClaims(s, candidates);
  }

  /** A resource asked for beyond what there is has a conflict in the list. */
  lemma OverdrawnIsListed(s: Snapshot, candidates: seq<Candidate>, derive: (seq<Bytes>, Key) -> Bytes, list: seq<Conflict>)
    requires Contenders(s, candidates) && IsConflictList(candidates, Capacity(s), derive, list)
    requires Total(candidates, s.resource) > s.available
    ensures exists c :: c in list && c.key == ResourceKey(s)
  {
    hide Total, MachineId, Less, IsConflictList;
    EveryoneClaims(s, candidates);
    TwoAreNeeded(s, candidates);
    assert candidates[0] in candidates && candidates[1] in candidates;
    assert IdOf(candidates[0]) != IdOf(candidates[1]);
    var who := Participants(candidates, Capacity(s), ResourceKey(s));
    AtLeastTwo(who, candidates[0].id, candidates[1].id);
    P.GroupIsListed(candidates, Capacity(s), derive, list, ResourceKey(s));
  }

  lemma AtLeastTwo<T>(s: set<T>, x: T, y: T)
    requires x in s && y in s && x != y
    ensures |s| >= 2
  {
    var rest := s - {x};
    assert y in rest && |rest| == |s| - 1;
  }

  /** No candidate is too much by itself, so a shortage takes at least two. */
  lemma TwoAreNeeded(s: Snapshot, candidates: seq<Candidate>)
    requires Contenders(s, candidates) && Total(candidates, s.resource) > s.available
    ensures |candidates| >= 2
  {
    hide MachineId, Claimed;
    if |candidates| == 1 {
      var c := candidates[0];
      assert c in candidates && candidates[..0] == [];
      var q: Quantity :| q <= s.available && c == CandidateOf(s, c.id, q);
      ClaimedByOne(s, c, q);
    }
  }

  // ----- allocation -----

  /** The kernel's own sum, broken off at the first request that no longer fits. */
  method IsExhausted(s: Snapshot, candidates: seq<Candidate>) returns (exhausted: bool)
    requires Contenders(s, candidates)
    ensures exhausted <==> Total(candidates, s.resource) > s.available
  {
    hide MachineId, Claimed;
    var total := 0;
    assert candidates[..0] == [];
    NothingIsWanted(s);
    for i := 0 to |candidates|
      invariant total == Total(candidates[..i], s.resource) <= s.available
    {
      var c := candidates[i];
      assert candidates[..i + 1][..i] == candidates[..i] && c in candidates;
      ghost var q: Quantity :| q <= s.available && c == CandidateOf(s, c.id, q);
      ClaimedByOne(s, c, q);
      var quantity := AmountOf(c);
      if quantity <= 0 || quantity > s.available {
        assert false;
      }
      if total > s.available - quantity {
        TotalGrows(candidates, i + 1, s.resource);
        return true;
      }
      total := total + quantity;
    }
    assert candidates[..|candidates|] == candidates;
    return false;
  }

  lemma {:induction false} TotalGrows(candidates: seq<Candidate>, n: nat, resource: Bytes)
    requires n <= |candidates|
    ensures Total(candidates[..n], resource) <= Total(candidates, resource)
  {
    if n < |candidates| {
      TotalGrows(candidates[..|candidates| - 1], n, resource);
      assert candidates[..|candidates| - 1][..n] == candidates[..n];
    } else {
      assert candidates[..n] == candidates;
    }
  }

  /** Picks the resource conflict out of the list. The other kind is passed over, since the sum
      already discharges the invariant, and there is no third. */
  method ResourceConflict(s: Snapshot, candidates: seq<Candidate>, derive: (seq<Bytes>, Key) -> Bytes, list: seq<Conflict>)
    returns (conflict: Option<Conflict>)
    requires Contenders(s, candidates) && IsConflictList(candidates, Capacity(s), derive, list)
    ensures conflict.Some? <==> Total(candidates, s.resource) > s.available
    ensures conflict.Some? ==> conflict.value in list && conflict.value.key == ResourceKey(s)
  {
    hide Total, MachineId, Less, Contenders, IsConflict;
    conflict := None;
    for i := 0 to |list|
      invariant conflict.Some? ==> conflict.value in list[..i] && conflict.value.key == ResourceKey(s)
      invariant conflict == None ==> forall c :: c in list[..i] ==> c.key != ResourceKey(s)
    {
      var c := list[i];
      assert list[..i + 1] == list[..i] + [c] && c in list;
      OnlyTwoKinds(s, candidates, derive, c);
      if c.key.kind == INVARIANT_CONFLICT && c.key.name == NONNEGATIVE {
      } else if c.key.kind == RESOURCE_CONFLICT && c.key.name == s.resource {
        if conflict.Some? {
          OneForTheResource(s, candidates, derive, list, i, conflict.value);
          assert false;
        }
        conflict := Some(c);
      } else {
        assert false;
      }
    }
    assert list[..|list|] == list;
    if Total(candidates, s.resource) > s.available {
      OverdrawnIsListed(s, candidates, derive, list);
    }
    if conflict.Some? {
      OnlyTwoKinds(s, candidates, derive, conflict.value);
    }
  }

  lemma OneForTheResource(s: Snapshot, candidates: seq<Candidate>, derive: (seq<Bytes>, Key) -> Bytes,
                          list: seq<Conflict>, i: nat, earlier: Conflict)
    requires IsConflictList(candidates, Capacity(s), derive, list) && i < |list| && list[i].key == ResourceKey(s)
    requires earlier in list[..i]
    ensures earlier.key != ResourceKey(s)
  {
    hide IsConflict, Less;
    assert list[i] in list && earlier in list;
    var j :| 0 <= j < i && list[j] == earlier;
    assert ConflictLess(list[j], list[i]);
    LessIrreflexive(earlier.id);
    if earlier.key == ResourceKey(s) {
      OneConflict(candidates, Capacity(s), derive, earlier);
    }
  }

  lemma MembersOfAPair(s: Snapshot, viable: seq<Candidate>, derive: (seq<Bytes>, Key) -> Bytes, c: Conflict)
    requires Contenders(s, viable) && |viable| == 2 && Sorted(CandidateLess, viable)
    requires IsConflict(viable, Capacity(s), derive, c) && c.key == ResourceKey(s)
    ensures c.members == [viable[0].id, viable[1].id]
    ensures Less(viable[0].id, viable[1].id) && !Less(viable[1].id, viable[0].id) && viable[0].id != viable[1].id
  {
    hide Total, MachineId, Less;
    OnlyTwoKinds(s, viable, derive, c);
    assert IdOf(viable[0]) != IdOf(viable[1]);
    assert !CandidateLess(viable[1], viable[0]);
    LessTotal(viable[0].id, viable[1].id);
    BytesAreOrdered();
    var ids := [viable[0].id, viable[1].id];
    assert viable[0] in viable && viable[1] in viable;
    StrictlySortedUnique(Less, c.members, ids);
  }

  ghost predicate IsWinnerSet(s: Snapshot, candidates: seq<Candidate>, draw: seq<Bytes> -> bool, winners: set<Bytes>) {
    if Total(candidates, s.resource) <= s.available then
      forall id :: id in winners <==> exists c :: c in candidates && c.id == id
    else
      forall c, d :: c in candidates && d in candidates && c.id != d.id ==>
                       (c.id in winners <==> Wins(c.id, d.id, draw))
  }

  /** Everyone, when there is enough; otherwise one of two even contenders, as the draw falls. */
  method Allocate(s: Snapshot, candidates: seq<Candidate>, derive: (seq<Bytes>, Key) -> Bytes, draw: seq<Bytes> -> bool)
    returns (r: Option<set<Bytes>>)
    requires Contenders(s, candidates) && Injective(derive)
    ensures r == None <==> Total(candidates, s.resource) > s.available && !IsEven(s, candidates)
    ensures r.Some? ==> IsWinnerSet(s, candidates, draw, r.value)
    ensures r.Some? ==> forall id :: id in r.value ==> exists c :: c in candidates && c.id == id
  {
    hide Total, MachineId, Less, Injective, Claimed;
    CandidatesAreOrdered();
    var viable := SortSlice(CandidateLess, candidates);
    SameMembers(viable, candidates);
    DistinctIgnoresOrder(IdOf, candidates, viable);
    P.TotalIgnoresOrder(viable, candidates, s.resource);
    DetectorFailsOnOverflow(s, viable);
    var exhausted := IsExhausted(s, viable);
    var detected := DetectClaims(viable, Capacity(s), derive);
    if detected.Err? {
      return None;
    }
    var conflict := ResourceConflict(s, viable, derive, detected.value);
    if (conflict == None) != !exhausted {
      assert false;
    }
    if !exhausted {
      return Some(set c | c in viable :: c.id);
    }
    if |viable| != 2 || |conflict.value.members| != 2 {
      if |viable| == 2 {
        MembersOfAPair(s, viable, derive, conflict.value);
      }
      return None;
    }
    MembersOfAPair(s, viable, derive, conflict.value);
    if AmountOf(viable[0]) != s.available || AmountOf(viable[1]) != s.available {
      return None;
    }
    var members := conflict.value.members;
    var winner := members[if draw(members) then 1 else 0];
    return Some({winner});
  }
}

/** What a caller may conclude from the conflicts `DetectClaims` returns. */
module ClaimProperties {
  import opened Bytes
  import opened Domain
  import opened Sorting
  import opened Claims

  // ----- when detection succeeds -----

  ghost predicate DistinctIds(candidates: seq<Candidate>) {
    forall i, j :: 0 <= i < j < |candidates| ==> candidates[i].id != candidates[j].id
  }

  /** Stated without an order: each candidate by itself, and each resource by its total. */
  ghost predicate Acceptable(candidates: seq<Candidate>, resources: map<Bytes, I64>) {
    && DistinctIds(candidates)
    && AllSound(candidates, resources)
    && WithinRange(candidates)
    && (forall c, k :: c in candidates && k in c.claims ==> resources[k.resource] >= 0)
  }

  ghost predicate SoundAlone(c: Candidate, resources: map<Bytes, I64>) {
    && c.authentic
    && (forall k :: k in c.claims ==> ClaimIsSound(k, resources))
    && (forall n :: n in c.invariants ==> MachineId(n))
  }

  ghost predicate WithinRange(candidates: seq<Candidate>) {
    forall c, k :: c in candidates && k in c.claims ==> Total(candidates, k.resource) <= MAX_I64
  }

  ghost predicate AllSound(candidates: seq<Candidate>, resources: map<Bytes, I64>) {
    forall c :: c in candidates ==> SoundAlone(c, resources)
  }

  ghost predicate StaysWithinRange(prior: seq<Candidate>, claims: seq<Claim>) {
    forall k :: k in claims ==> Total(prior, k.resource) + Claimed(claims, k.resource) <= MAX_I64
  }

  lemma DistinctOneMore(init: seq<Candidate>, last: Candidate)
    ensures DistinctIds(init + [last]) <==> DistinctIds(init) && !Seen(init, last.id)
  {
    var all := init + [last];
    if DistinctIds(all) {
      forall i, j | 0 <= i < j < |init| ensures init[i].id != init[j].id {
        assert all[i].id != all[j].id;
      }
      forall c | c in init ensures c.id != last.id {
        var i :| 0 <= i < |init| && init[i] == c;
        assert all[i].id != all[|init|].id;
      }
    }
  }

  lemma CandidateSucceeds(init: seq<Candidate>, last: Candidate, resources: map<Bytes, I64>)
    ensures CandidateFailure(init, last, resources) == None <==>
            !Seen(init, last.id) && SoundAlone(last, resources) && StaysWithinRange(init, last.claims)
  {
    hide ClaimsFailure, ClaimIsSound, Seen, Total, Claimed, MachineId;
    AcceptedClaims(init, last.claims, resources);
  }

  lemma AllSoundOneMore(init: seq<Candidate>, last: Candidate, resources: map<Bytes, I64>)
    ensures AllSound(init + [last], resources) <==> AllSound(init, resources) && SoundAlone(last, resources)
  {
    hide SoundAlone;
    assert forall c :: c in init + [last] <==> c in init || c == last;
  }

  lemma {:induction false} ScanSucceeds(candidates: seq<Candidate>, resources: map<Bytes, I64>)
    ensures ScanFailure(candidates, resources) == None <==>
            DistinctIds(candidates) && AllSound(candidates, resources) && WithinRange(candidates)
  {
    if candidates != [] {
      hide CandidateFailure, DistinctIds, AllSound, WithinRange, SoundAlone, StaysWithinRange, Seen;
      var init, last := candidates[..|candidates| - 1], candidates[|candidates| - 1];
      assert candidates == init + [last];
      ScanSucceeds(init, resources);
      CandidateSucceeds(init, last, resources);
      DistinctOneMore(init, last);
      AllSoundOneMore(init, last, resources);
      RangeOfOneMore(init, last);
    }
  }

  lemma {:induction false} UnclaimedIsZero(claims: seq<Claim>, resource: Bytes)
    requires forall k :: k in claims ==> k.resource != resource
    ensures Claimed(claims, resource) == 0
  {
    if claims != [] {
      var init, last := claims[..|claims| - 1], claims[|claims| - 1];
      assert claims == init + [last];
      UnclaimedIsZero(init, resource);
    }
  }

  lemma RangeOfOneMore(init: seq<Candidate>, last: Candidate)
    ensures WithinRange(init + [last]) <==>
            WithinRange(init) && StaysWithinRange(init, last.claims)
  {
    var all := init + [last];
    assert all[..|init|] == init && last in all;
    assert forall c :: c in all <==> c in init || c == last;
    if WithinRange(init) && StaysWithinRange(init, last.claims) {
      forall c, k | c in all && k in c.claims ensures Total(all, k.resource) <= MAX_I64 {
        if forall j :: j in last.claims ==> j.resource != k.resource {
          UnclaimedIsZero(last.claims, k.resource);
        } else {
          var j :| j in last.claims && j.resource == k.resource;
        }
      }
    }
  }

  /** Detection succeeds exactly on the acceptable inputs; for otherwise sound candidates
      the `int64` guard refuses exactly when some resource's total is out of range. */
  lemma DetectionSucceeds(candidates: seq<Candidate>, resources: map<Bytes, I64>)
    ensures DetectFailure(candidates, resources) == None <==> Acceptable(candidates, resources)
  {
    ScanSucceeds(candidates, resources);
    if ScanFailure(candidates, resources) == None {
      if Acceptable(candidates, resources) {
        forall r | r in resources && Users(candidates, Resource, r) != {} ensures resources[r] >= 0 {
          var id :| id in Users(candidates, Resource, r);
          var c :| c in candidates && Mentions(c, Resource, r) && c.id == id;
          var k :| k in c.claims && k.resource == r;
        }
      } else {
        var c, k :| c in candidates && k in c.claims && resources[k.resource] < 0;
        assert Mentions(c, Resource, k.resource);
        assert c.id in Users(candidates, Resource, k.resource);
      }
    }
  }

  lemma GuardFiresOnOverflow(candidates: seq<Candidate>, resources: map<Bytes, I64>)
    requires DistinctIds(candidates) && AllSound(candidates, resources)
    ensures ScanFailure(candidates, resources) == Some(Indeterminate) <==> !WithinRange(candidates)
    ensures ScanFailure(candidates, resources) == None <==> WithinRange(candidates)
  {
    ScanSucceeds(candidates, resources);
    OnlyTheGuardIsLeft(candidates, resources);
  }

  lemma {:induction false} OnlyTheGuardIsLeft(candidates: seq<Candidate>, resources: map<Bytes, I64>)
    requires DistinctIds(candidates) && AllSound(candidates, resources)
    ensures ScanFailure(candidates, resources) in {None, Some(Indeterminate)}
  {
    if candidates != [] {
      var init, last := candidates[..|candidates| - 1], candidates[|candidates| - 1];
      assert last in candidates && forall c :: c in init ==> c in candidates;
      OnlyTheGuardIsLeft(init, resources);
      OnlyTheGuardIsLeftInClaims(init, last.claims, resources);
      assert !Seen(init, last.id);
    }
  }

  lemma {:induction false} OnlyTheGuardIsLeftInClaims(prior: seq<Candidate>, claims: seq<Claim>, resources: map<Bytes, I64>)
    requires forall k :: k in claims ==> ClaimIsSound(k, resources)
    ensures ClaimsFailure(prior, claims, resources) in {None, Some(Indeterminate)}
  {
    if claims != [] {
      var init, last := claims[..|claims| - 1], claims[|claims| - 1];
      assert last in claims && forall k :: k in init ==> k in claims;
      OnlyTheGuardIsLeftInClaims(prior, init, resources);
    }
  }

  // ----- order independence -----

  lemma {:induction false} TotalAppend(a: seq<Candidate>, b: seq<Candidate>, resource: Bytes)
    ensures Total(a + b, resource) == Total(a, resource) + Total(b, resource)
  {
    if b == [] {
      assert a + b == a;
    } else {
      assert (a + b)[..|a + b| - 1] == a + b[..|b| - 1];
      TotalAppend(a, b[..|b| - 1], resource);
    }
  }

  lemma TotalAround(front: seq<Candidate>, x: Candidate, back: seq<Candidate>, resource: Bytes)
    ensures Total(front + [x] + back, resource) == Total(front + back, resource) + Total([x], resource)
  {
    hide Total;
    TotalAppend(front, back, resource);
    TotalAppend(front, [x], resource);
    TotalAppend(front + [x], back, resource);
  }

  lemma {:induction false} TotalIgnoresOrder(a: seq<Candidate>, b: seq<Candidate>, resource: Bytes)
    requires multiset(a) == multiset(b)
    ensures Total(a, resource) == Total(b, resource)
  {
    hide Total;
    SameMembers(a, b);
    if a == [] {
      assert a == b;
    } else {
      var init, last := a[..|a| - 1], a[|a| - 1];
      assert a == init + [last] + [] && last in b;
      var k :| 0 <= k < |b| && b[k] == last;
      var front, back := b[..k], b[k + 1..];
      assert b == front + [last] + back;
      TakeOneAway(init, [], front, back, last);
      assert init + [] == init;
      TotalIgnoresOrder(init, front + back, resource);
      TotalAround(init, last, [], resource);
      TotalAround(front, last, back, resource);
    }
  }

  lemma ParticipantsIgnoreOrder(a: seq<Candidate>, b: seq<Candidate>, resources: map<Bytes, I64>, key: Key)
    requires multiset(a) == multiset(b)
    ensures Participants(a, resources, key) == Participants(b, resources, key)
  {
    SameMembers(a, b);
    TotalIgnoresOrder(a, b, key.name);
    assert forall field :: Users(a, field, key.name) == Users(b, field, key.name);
  }

  /** Neither success nor the returned list depends on the order of the candidates. */
  lemma DetectionIgnoresOrder(a: seq<Candidate>, b: seq<Candidate>, resources: map<Bytes, I64>,
                              derive: (seq<Bytes>, Key) -> Bytes, listA: seq<Conflict>, listB: seq<Conflict>)
    requires multiset(a) == multiset(b) && Injective(derive)
    ensures DetectFailure(a, resources) == None <==> DetectFailure(b, resources) == None
    ensures IsConflictList(a, resources, derive, listA) && IsConflictList(b, resources, derive, listB) ==> listA == listB
  {
    hide Participants, DetectFailure, Less, Total, Users;
    AcceptableIgnoresOrder(a, b, resources);
    DetectionSucceeds(a, resources);
    DetectionSucceeds(b, resources);
    if IsConflictList(a, resources, derive, listA) && IsConflictList(b, resources, derive, listB) {
      forall c ensures c in listA <==> c in listB {
        ParticipantsIgnoreOrder(a, b, resources, c.key);
      }
      ConflictsAreOrdered({});
      StrictlySortedUnique(ConflictLess, listA, listB);
    }
  }

  lemma AcceptableIgnoresOrder(a: seq<Candidate>, b: seq<Candidate>, resources: map<Bytes, I64>)
    requires multiset(a) == multiset(b)
    ensures Acceptable(a, resources) <==> Acceptable(b, resources)
  {
    hide Total, ClaimIsSound;
    SameMembers(a, b);
    forall r ensures Total(a, r) == Total(b, r) {
      TotalIgnoresOrder(a, b, r);
    }
    DistinctIgnoresOrder((c: Candidate) => c.id, a, b);
    DistinctIgnoresOrder((c: Candidate) => c.id, b, a);
    assert DistinctIds(a) <==> DistinctBy((c: Candidate) => c.id, a);
    assert DistinctIds(b) <==> DistinctBy((c: Candidate) => c.id, b);
  }

  // ----- selecting candidates -----

  /** What the chosen candidates ask of a resource together. */
  ghost function Demand(candidates: seq<Candidate>, chosen: set<Bytes>, resource: Bytes): nat {
    if candidates == [] then 0
    else
      var last := candidates[|candidates| - 1];
      Demand(candidates[..|candidates| - 1], chosen, resource)
      + if last.id in chosen then Claimed(last.claims, resource) else 0
  }

  /** At most one member of each conflict is chosen. */
  ghost predicate OnePerConflict(list: seq<Conflict>, chosen: set<Bytes>) {
    forall c, x, y :: c in list && x in c.members && y in c.members && x in chosen && y in chosen ==> x == y
  }

  ghost predicate FitsAlone(candidates: seq<Candidate>, resources: map<Bytes, I64>, chosen: set<Bytes>) {
    forall c, r :: c in candidates && c.id in chosen && r in resources && Mentions(c, Resource, r) ==>
                     Claimed(c.claims, r) <= resources[r]
  }

  ghost predicate FitsTogether(candidates: seq<Candidate>, resources: map<Bytes, I64>, chosen: set<Bytes>) {
    forall r :: r in resources && Users(candidates, Resource, r) != {} ==> Demand(candidates, chosen, r) <= resources[r]
  }

  /** No chosen candidate writes what another chosen one reads or writes. */
  ghost predicate AccessIsDisjoint(candidates: seq<Candidate>, chosen: set<Bytes>) {
    forall c, d :: c in candidates && d in candidates && c.id in chosen && d.id in chosen && c.id != d.id ==>
                     forall ref :: ref in c.writeRefs ==> ref !in d.readRefs && ref !in d.writeRefs
  }

  ghost predicate InvariantsAreDisjoint(candidates: seq<Candidate>, chosen: set<Bytes>) {
    forall c, d :: c in candidates && d in candidates && c.id in chosen && d.id in chosen && c.id != d.id ==>
                     forall name :: name in c.invariants ==> name !in d.invariants
  }

  lemma {:induction false} DemandIsPartOfTotal(candidates: seq<Candidate>, chosen: set<Bytes>, resource: Bytes)
    ensures Demand(candidates, chosen, resource) <= Total(candidates, resource)
  {
    if candidates != [] {
      DemandIsPartOfTotal(candidates[..|candidates| - 1], chosen, resource);
    }
  }

  lemma {:induction false} DemandCoversEach(candidates: seq<Candidate>, chosen: set<Bytes>, resource: Bytes, c: Candidate)
    requires c in candidates && c.id in chosen
    ensures Claimed(c.claims, resource) <= Demand(candidates, chosen, resource)
  {
    var init, last := candidates[..|candidates| - 1], candidates[|candidates| - 1];
    assert candidates == init + [last];
    if c != last {
      DemandCoversEach(init, chosen, resource, c);
    }
  }

  /** A resource only one chosen candidate mentions is asked for by that one alone. */
  lemma {:induction false} DemandOfOne(candidates: seq<Candidate>, chosen: set<Bytes>, resource: Bytes, bound: int)
    requires DistinctIds(candidates) && bound >= 0
    requires forall c, d :: c in candidates && d in candidates && c.id in chosen && d.id in chosen ==>
                              Mentions(c, Resource, resource) && Mentions(d, Resource, resource) ==> c.id == d.id
    requires forall c :: c in candidates && c.id in chosen && Mentions(c, Resource, resource) ==> Claimed(c.claims, resource) <= bound
    ensures Demand(candidates, chosen, resource) <= bound
  {
    if candidates != [] {
      var init, last := candidates[..|candidates| - 1], candidates[|candidates| - 1];
      assert candidates == init + [last];
      if last.id in chosen && Mentions(last, Resource, resource) {
        forall c | c in init ensures !(c.id in chosen && Mentions(c, Resource, resource)) {
          var i :| 0 <= i < |init| && init[i] == c;
          assert candidates[i].id != candidates[|init|].id;
        }
        DemandOfNobody(init, chosen, resource);
      } else {
        if last.id in chosen {
          UnclaimedIsZero(last.claims, resource);
        }
        DemandOfOne(init, chosen, resource, bound);
      }
    }
  }

  lemma {:induction false} DemandOfNobody(candidates: seq<Candidate>, chosen: set<Bytes>, resource: Bytes)
    requires forall c :: c in candidates ==> !(c.id in chosen && Mentions(c, Resource, resource))
    ensures Demand(candidates, chosen, resource) == 0
  {
    if candidates != [] {
      var init, last := candidates[..|candidates| - 1], candidates[|candidates| - 1];
      assert candidates == init + [last];
      DemandOfNobody(init, chosen, resource);
      if last.id in chosen {
        UnclaimedIsZero(last.claims, resource);
      }
    }
  }

  lemma {:induction false} Listing(s: set<Bytes>) returns (ids: seq<Bytes>)
    ensures multiset(ids) == multiset(s)
    ensures StrictlySorted(Less, ids)
    ensures forall id :: id in ids <==> id in s
  {
    hide Less, Insert;
    BytesAreOrdered();
    ids := [];
    if s != {} {
      var x :| x in s;
      var rest := Listing(s - {x});
      InsertSorted(Less, x, rest);
      ids := Insert(Less, x, rest);
      assert multiset(s) == multiset(s - {x}) + multiset{x};
    }
    StrictListing(s, ids);
  }

  lemma StrictListing(s: set<Bytes>, ids: seq<Bytes>)
    requires multiset(ids) == multiset(s) && Sorted(Less, ids)
    ensures StrictlySorted(Less, ids)
    ensures forall id :: id in ids <==> id in s
  {
    hide Less;
    BytesAreOrdered();
    forall i, j | 0 <= i < j < |ids| ensures Less(ids[i], ids[j]) {
      DistinctInSet(ids, s, i, j);
    }
    forall id ensures id in ids <==> id in s {
      assert id in multiset(ids) <==> id in multiset(s);
    }
  }

  /** Every group of two or more is in the list. */
  lemma GroupIsListed(candidates: seq<Candidate>, resources: map<Bytes, I64>, derive: (seq<Bytes>, Key) -> Bytes,
                      list: seq<Conflict>, key: Key)
    requires IsConflictList(candidates, resources, derive, list)
    requires |Participants(candidates, resources, key)| >= 2
    ensures exists c :: c in list && c.key == key && forall id :: id in c.members <==> id in Participants(candidates, resources, key)
  {
    hide Participants, Less;
    var ids := Listing(Participants(candidates, resources, key));
    var c := Conflict(derive(ids, key), ids, key);
    assert IsConflict(candidates, resources, derive, c);
    assert c in list;
  }

  lemma OnlyOne<T>(s: set<T>, x: T, y: T)
    requires |s| < 2 && x in s && y in s
    ensures x == y
  {
    var rest := s - {x};
    assert |rest| == |s| - 1;
    assert y !in rest;
  }

  lemma OneOfAGroup(candidates: seq<Candidate>, resources: map<Bytes, I64>, derive: (seq<Bytes>, Key) -> Bytes,
                    list: seq<Conflict>, chosen: set<Bytes>, key: Key, x: Bytes, y: Bytes)
    requires IsConflictList(candidates, resources, derive, list) && OnePerConflict(list, chosen)
    requires x in Participants(candidates, resources, key) && x in chosen
    requires y in Participants(candidates, resources, key) && y in chosen
    ensures x == y
  {
    hide Participants, IsConflictList;
    if |Participants(candidates, resources, key)| < 2 {
      OnlyOne(Participants(candidates, resources, key), x, y);
    } else {
      GroupIsListed(candidates, resources, derive, list, key);
      var c :| c in list && c.key == key && forall id :: id in c.members <==> id in Participants(candidates, resources, key);
    }
  }

  /** Choosing at most one member of each returned conflict keeps reads, writes and invariants
      apart, and keeps every resource within its capacity exactly when each chosen candidate
      would fit alone. */
  lemma SelectionIsSound(candidates: seq<Candidate>, resources: map<Bytes, I64>, derive: (seq<Bytes>, Key) -> Bytes,
                         list: seq<Conflict>, chosen: set<Bytes>)
    requires DetectFailure(candidates, resources) == None
    requires IsConflictList(candidates, resources, derive, list) && OnePerConflict(list, chosen)
    ensures FitsTogether(candidates, resources, chosen) <==> FitsAlone(candidates, resources, chosen)
    ensures AccessIsDisjoint(candidates, chosen)
    ensures InvariantsAreDisjoint(candidates, chosen)
  {
    DetectionSucceeds(candidates, resources);
    AccessStaysApart(candidates, resources, derive, list, chosen);
    InvariantsStayApart(candidates, resources, derive, list, chosen);
    if FitsAlone(candidates, resources, chosen) {
      forall r | r in resources && Users(candidates, Resource, r) != {} ensures Demand(candidates, chosen, r) <= resources[r] {
        ResourceStaysWithin(candidates, resources, derive, list, chosen, r);
      }
    }
    if FitsTogether(candidates, resources, chosen) {
      forall c, r | c in candidates && c.id in chosen && r in resources && Mentions(c, Resource, r)
        ensures Claimed(c.claims, r) <= resources[r]
      {
        assert c.id in Users(candidates, Resource, r);
        DemandCoversEach(candidates, chosen, r, c);
      }
    }
  }

  lemma ResourceStaysWithin(candidates: seq<Candidate>, resources: map<Bytes, I64>, derive: (seq<Bytes>, Key) -> Bytes,
                            list: seq<Conflict>, chosen: set<Bytes>, r: Bytes)
    requires Acceptable(candidates, resources)
    requires IsConflictList(candidates, resources, derive, list) && OnePerConflict(list, chosen)
    requires FitsAlone(candidates, resources, chosen)
    requires r in resources && Users(candidates, Resource, r) != {}
    ensures Demand(candidates, chosen, r) <= resources[r]
  {
    hide IsConflictList, OnePerConflict, SoundAlone;
    DemandIsPartOfTotal(candidates, chosen, r);
    var id :| id in Users(candidates, Resource, r);
    assert resources[r] >= 0;
    if Total(candidates, r) > resources[r] {
      forall c, d | c in candidates && d in candidates && c.id in chosen && d.id in chosen
                    && Mentions(c, Resource, r) && Mentions(d, Resource, r)
        ensures c.id == d.id
      {
        OneOfAGroup(candidates, resources, derive, list, chosen, Key(RESOURCE_CONFLICT, r), c.id, d.id);
      }
      DemandOfOne(candidates, chosen, r, resources[r]);
    }
  }

  lemma AccessMeets(candidates: seq<Candidate>, resources: map<Bytes, I64>, derive: (seq<Bytes>, Key) -> Bytes,
                    list: seq<Conflict>, chosen: set<Bytes>, c: Candidate, d: Candidate, ref: Bytes)
    requires IsConflictList(candidates, resources, derive, list) && OnePerConflict(list, chosen)
    requires c in candidates && d in candidates && c.id in chosen && d.id in chosen
    requires Mentions(c, Writes, ref) && (Mentions(d, Reads, ref) || Mentions(d, Writes, ref))
    ensures c.id == d.id
  {
    hide IsConflictList, OnePerConflict, Mentions;
    var readers, writers := Users(candidates, Reads, ref), Users(candidates, Writes, ref);
    assert c.id in writers && d.id in readers + writers;
    if |readers + writers| < 2 {
      OnlyOne(readers + writers, c.id, d.id);
    } else {
      assert Participants(candidates, resources, Key(ACCESS_CONFLICT, ref)) == readers + writers;
      OneOfAGroup(candidates, resources, derive, list, chosen, Key(ACCESS_CONFLICT, ref), c.id, d.id);
    }
  }

  lemma AccessStaysApart(candidates: seq<Candidate>, resources: map<Bytes, I64>, derive: (seq<Bytes>, Key) -> Bytes,
                         list: seq<Conflict>, chosen: set<Bytes>)
    requires IsConflictList(candidates, resources, derive, list) && OnePerConflict(list, chosen)
    ensures AccessIsDisjoint(candidates, chosen)
  {
    hide IsConflictList, OnePerConflict;
    forall c, d, ref | c in candidates && d in candidates && c.id in chosen && d.id in chosen
                       && ref in c.writeRefs && (ref in d.readRefs || ref in d.writeRefs)
      ensures c.id == d.id
    {
      AccessMeets(candidates, resources, derive, list, chosen, c, d, ref);
    }
  }

  lemma InvariantsStayApart(candidates: seq<Candidate>, resources: map<Bytes, I64>, derive: (seq<Bytes>, Key) -> Bytes,
                            list: seq<Conflict>, chosen: set<Bytes>)
    requires IsConflictList(candidates, resources, derive, list) && OnePerConflict(list, chosen)
    ensures InvariantsAreDisjoint(candidates, chosen)
  {
    hide IsConflictList, OnePerConflict;
    forall c, d, name | c in candidates && d in candidates && c.id in chosen && d.id in chosen
                        && name in c.invariants && name in d.invariants
      ensures c.id == d.id
    {
      assert Mentions(c, Invariants, name) && Mentions(d, Invariants, name);
      OneOfAGroup(candidates, resources, derive, list, chosen, Key(INVARIANT_CONFLICT, name), c.id, d.id);
    }
  }

  // ----- no conflict is invented, and the one that is missed -----

  /** Taking all the members of a resource conflict would overdraw it; some member of an access
      conflict writes the reference and all of them use it; all the members of an invariant
      conflict name it. */
  lemma ConflictsAreReal(candidates: seq<Candidate>, resources: map<Bytes, I64>, derive: (seq<Bytes>, Key) -> Bytes,
                         list: seq<Conflict>, c: Conflict)
    requires IsConflictList(candidates, resources, derive, list) && c in list
    ensures |c.members| >= 2
    ensures c.key.kind == RESOURCE_CONFLICT ==>
              c.key.name in resources && Demand(candidates, (set id | id in c.members), c.key.name) > resources[c.key.name]
    ensures c.key.kind == ACCESS_CONFLICT ==> exists x :: x in c.members && x in Users(candidates, Writes, c.key.name)
    ensures c.key.kind == ACCESS_CONFLICT ==> forall x :: x in c.members ==>
                                                x in Users(candidates, Reads, c.key.name) + Users(candidates, Writes, c.key.name)
    ensures c.key.kind == INVARIANT_CONFLICT ==> forall x :: x in c.members ==> x in Users(candidates, Invariants, c.key.name)
    ensures c.key.kind in {RESOURCE_CONFLICT, ACCESS_CONFLICT, INVARIANT_CONFLICT}
  {
    hide Less, Users, Total, Demand;
    assert IsConflict(candidates, resources, derive, c);
    var members := set id | id in c.members;
    assert members == Participants(candidates, resources, c.key);
    MembersAreAtLeastASet(c.members);
    if c.key.kind == RESOURCE_CONFLICT {
      DemandOfAllHolders(candidates, candidates, c.key.name);
    }
  }

  lemma {:induction false} MembersAreAtLeastASet(members: seq<Bytes>)
    ensures |set id | id in members| <= |members|
  {
    var all := set id | id in members;
    if members != [] {
      var init, last := members[..|members| - 1], members[|members| - 1];
      MembersAreAtLeastASet(init);
      assert all == (set id | id in init) + {last};
    } else {
      assert all == {};
    }
  }

  lemma {:induction false} DemandOfAllHolders(part: seq<Candidate>, candidates: seq<Candidate>, resource: Bytes)
    requires forall c :: c in part ==> c in candidates
    ensures Demand(part, Users(candidates, Resource, resource), resource) == Total(part, resource)
  {
    if part != [] {
      var init, last := part[..|part| - 1], part[|part| - 1];
      assert part == init + [last];
      DemandOfAllHolders(init, candidates, resource);
      if !Mentions(last, Resource, resource) {
        UnclaimedIsZero(last.claims, resource);
      } else {
        assert last in candidates && last.id in Users(candidates, Resource, resource);
      }
    }
  }

  /** A group of one is dropped: a lone candidate that asks for more than there is raises no
      conflict, so the condition of `SelectionIsSound` is needed. */
  lemma LoneOverclaimIsNotAConflict(derive: (seq<Bytes>, Key) -> Bytes)
    ensures var c := Candidate([1], true, [Claim([0x61], 1, Unsigned(2))], [], [], []);
            var resources: map<Bytes, I64> := map[[0x61] := 1];
            && DetectFailure([c], resources) == None
            && IsConflictList([c], resources, derive, [])
            && OnePerConflict([], {c.id})
            && !FitsTogether([c], resources, {c.id})
  {
    var name: Bytes := [0x61];
    var c := Candidate([1], true, [Claim(name, 1, Unsigned(2))], [], [], []);
    var resources: map<Bytes, I64> := map[name := 1];
    LoneIsAcceptable(c, name, resources);
    DetectionSucceeds([c], resources);
    forall d ensures !IsConflict([c], resources, derive, d) {
      LoneMakesNoGroup(c, resources, d.key);
    }
    assert c.id in Users([c], Resource, name);
    assert Demand([c], {c.id}, name) == 2;
  }

  lemma LoneIsAcceptable(c: Candidate, name: Bytes, resources: map<Bytes, I64>)
    requires name == [0x61] && c == Candidate([1], true, [Claim(name, 1, Unsigned(2))], [], [], [])
    requires resources == map[name := 1]
    ensures Acceptable([c], resources)
    ensures Total([c], name) == 2 && Claimed(c.claims, name) == 2 && Mentions(c, Resource, name)
  {
    assert |name| == 1 && IsAlphanumeric(name[0]) && MachineId(name);
    assert c.claims[..0] == [] && [c][..0] == [];
    assert Claimed(c.claims, name) == 2;
    assert Total([c], name) == 2;
    assert SoundAlone(c, resources);
  }

  lemma LoneMakesNoGroup(c: Candidate, resources: map<Bytes, I64>, key: Key)
    ensures |Participants([c], resources, key)| < 2
  {
    forall field, name ensures Users([c], field, name) <= {c.id} {
    }
    hide Users;
    var who := Participants([c], resources, key);
    assert who <= {c.id};
    SubsetIsSmaller(who, {c.id});
  }
}

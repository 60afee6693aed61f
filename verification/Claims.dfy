/** Conservative conflict detection between candidates of one cycle. */
module Claims {
  import opened Bytes
  import opened Domain
  import opened Sorting

  /** A claim field read from a canonical record: a signed or an unsigned integer, or neither. */
  datatype Amount = Signed(i: I64) | Unsigned(n: U64) | NotAnInteger

  datatype Claim = Claim(resource: Bytes, mode: nat, amount: Amount)

  /** `authentic` stands for the record checks: field count and types, identity, digest and
      canonical bytes. `readRefs` and `writeRefs` hold the labels of the references, which are
      injective in the reference. */
  datatype Candidate = Candidate(id: Bytes, authentic: bool, claims: seq<Claim>, readRefs: seq<Bytes>,
                                 writeRefs: seq<Bytes>, invariants: seq<Bytes>)

  datatype Error = Provenance | Indeterminate

  datatype Field = Resource | Reads | Writes | Invariants

  const RESOURCE_CONFLICT: nat := 0
  const ACCESS_CONFLICT: nat := 1
  const INVARIANT_CONFLICT: nat := 2

  /** What a group of candidates is about: one of the three kinds above, and a name. */
  datatype Key = Key(kind: nat, name: Bytes)

  datatype Conflict = Conflict(id: Bytes, members: seq<Bytes>, key: Key)

  type Holders = map<Bytes, set<Bytes>>

  // ----- amounts -----

  /** Only amounts from 1 to the largest `int64` are accepted, however they are encoded. */
  function PositiveAmount(a: Amount): (r: Option<nat>)
    ensures r.Some? ==> 0 < r.value <= MAX_I64
    ensures r == None <==> a.NotAnInteger? || (a.Signed? && a.i <= 0) || (a.Unsigned? && (a.n == 0 || a.n > MAX_I64))
  {
    match a
    case Signed(i) => if i > 0 then Some(i) else None
    case Unsigned(n) => if n == 0 || n > MAX_I64 then None else Some(n)
    case NotAnInteger => None
  }

  function Units(claim: Claim): nat {
    match PositiveAmount(claim.amount)
    case Some(n) => n
    case None => 0
  }

  /** What the claims ask of a resource. */
  function Claimed(claims: seq<Claim>, resource: Bytes): nat {
    if claims == [] then 0
    else
      var last := claims[|claims| - 1];
      Claimed(claims[..|claims| - 1], resource) + if last.resource == resource then Units(last) else 0
  }

  function Total(candidates: seq<Candidate>, resource: Bytes): nat {
    if candidates == [] then 0
    else
      Total(candidates[..|candidates| - 1], resource) + Claimed(candidates[|candidates| - 1].claims, resource)
  }

  predicate Mentions(c: Candidate, field: Field, name: Bytes) {
    match field
    case Resource => exists k :: k in c.claims && k.resource == name
    case Reads => name in c.readRefs
    case Writes => name in c.writeRefs
    case Invariants => name in c.invariants
  }

  /** The candidates that mention a name in a field. */
  function Users(candidates: seq<Candidate>, field: Field, name: Bytes): set<Bytes> {
    set c | c in candidates && Mentions(c, field, name) :: c.id
  }

  // ----- what detection decides -----

  function ClaimFailure(claim: Claim, resources: map<Bytes, I64>, seen: nat): Option<Error> {
    if !MachineId(claim.resource) then Some(Provenance)
    else if claim.mode != 1 then Some(Indeterminate)
    else
      match PositiveAmount(claim.amount)
      case None => Some(Provenance)
      case Some(amount) =>
        if claim.resource !in resources then Some(Indeterminate)
        else if seen > MAX_I64 - amount then Some(Indeterminate)
        else None
  }

  function ClaimsFailure(prior: seq<Candidate>, claims: seq<Claim>, resources: map<Bytes, I64>): Option<Error> {
    if claims == [] then None
    else
      var init, last := claims[..|claims| - 1], claims[|claims| - 1];
      match ClaimsFailure(prior, init, resources)
      case Some(e) => Some(e)
      case None => ClaimFailure(last, resources, Total(prior, last.resource) + Claimed(init, last.resource))
  }

  predicate Seen(prior: seq<Candidate>, id: Bytes) {
    exists c :: c in prior && c.id == id
  }

  function CandidateFailure(prior: seq<Candidate>, c: Candidate, resources: map<Bytes, I64>): Option<Error> {
    if Seen(prior, c.id) || !c.authentic then Some(Provenance)
    else
      match ClaimsFailure(prior, c.claims, resources)
      case Some(e) => Some(e)
      case None => if exists n :: n in c.invariants && !MachineId(n) then Some(Provenance) else None
  }

  /** The first candidate, claim or invariant name that is not acceptable decides the error. */
  function ScanFailure(candidates: seq<Candidate>, resources: map<Bytes, I64>): Option<Error> {
    if candidates == [] then None
    else
      var init, last := candidates[..|candidates| - 1], candidates[|candidates| - 1];
      match ScanFailure(init, resources)
      case Some(e) => Some(e)
      case None => CandidateFailure(init, last, resources)
  }

  predicate NegativeCapacity(candidates: seq<Candidate>, resources: map<Bytes, I64>) {
    exists r :: r in resources && Users(candidates, Resource, r) != {} && resources[r] < 0
  }

  function DetectFailure(candidates: seq<Candidate>, resources: map<Bytes, I64>): Option<Error> {
    match ScanFailure(candidates, resources)
    case Some(e) => Some(e)
    case None => if NegativeCapacity(candidates, resources) then Some(Indeterminate) else None
  }

  /** Everyone a group is about: the holders of an overdrawn resource, the readers and writers of
      a reference that some candidate writes, the holders of an invariant. */
  function Participants(candidates: seq<Candidate>, resources: map<Bytes, I64>, key: Key): set<Bytes> {
    if key.kind == RESOURCE_CONFLICT then
      if key.name in resources && Total(candidates, key.name) > resources[key.name]
      then Users(candidates, Resource, key.name) else {}
    else if key.kind == ACCESS_CONFLICT then
      if Users(candidates, Writes, key.name) == {} then {}
      else
        var union := Users(candidates, Reads, key.name) + Users(candidates, Writes, key.name);
        if |union| < 2 then {} else union
    else if key.kind == INVARIANT_CONFLICT then Users(candidates, Invariants, key.name)
    else {}
  }

  ghost predicate IsConflict(candidates: seq<Candidate>, resources: map<Bytes, I64>,
                             derive: (seq<Bytes>, Key) -> Bytes, c: Conflict) {
    var who := Participants(candidates, resources, c.key);
    && |who| >= 2
    && StrictlySorted(Less, c.members)
    && (forall id :: id in c.members <==> id in who)
    && c.id == derive(c.members, c.key)
  }

  predicate ConflictLess(a: Conflict, b: Conflict) {
    Less(a.id, b.id)
  }

  /** Exactly the conflicts there are, in the order of their identities. */
  ghost predicate IsConflictList(candidates: seq<Candidate>, resources: map<Bytes, I64>,
                                 derive: (seq<Bytes>, Key) -> Bytes, list: seq<Conflict>) {
    && StrictlySorted(ConflictLess, list)
    && forall c :: c in list <==> IsConflict(candidates, resources, derive, c)
  }

  /** Identities are hashes of the members, the kind and the key: different preimages,
      different identities. */
  ghost predicate Injective(derive: (seq<Bytes>, Key) -> Bytes) {
    forall a, j, b, k :: derive(a, j) == derive(b, k) ==> a == b && j == k
  }

  lemma BytesAreOrdered()
    ensures StrictOrder(Less)
    ensures forall a, b :: Less(a, b) || a == b || Less(b, a)
  {
    forall a ensures !Less(a, a) {
      LessIrreflexive(a);
    }
    forall a, b, c | Less(a, b) && Less(b, c) ensures Less(a, c) {
      LessTransitive(a, b, c);
    }
    forall a, b ensures Less(a, b) || a == b || Less(b, a) {
      LessTotal(a, b);
    }
  }

  // ----- the detector's loops -----

  ghost predicate Indexes(index: Holders, candidates: seq<Candidate>, field: Field) {
    forall name :: (name in index <==> Users(candidates, field, name) != {})
                   && (name in index ==> index[name] == Users(candidates, field, name))
  }

  ghost predicate Sums(totals: map<Bytes, nat>, candidates: seq<Candidate>, claims: seq<Claim>) {
    forall name :: (if name in totals then totals[name] else 0) == Total(candidates, name) + Claimed(claims, name)
  }

  function At(index: Holders, name: Bytes): set<Bytes> {
    if name in index then index[name] else {}
  }

  /** `r` is `index` with `id` entered under every one of the names. */
  ghost predicate Entered(index: Holders, names: seq<Bytes>, id: Bytes, r: Holders) {
    && (forall name :: At(r, name) == At(index, name) + (if name in names then {id} else {}))
    && (forall name :: name in r <==> name in index || name in names)
  }

  lemma EnterOneMore(index: Holders, names: seq<Bytes>, id: Bytes, r: Holders, name: Bytes)
    requires Entered(index, names, id, r)
    ensures Entered(index, names + [name], id, r[name := At(r, name) + {id}])
  {
    assert forall n :: n in names + [name] <==> n in names || n == name;
  }

  /** Enters a candidate under every name of a list. */
  method Enter(index: Holders, names: seq<Bytes>, id: Bytes) returns (r: Holders)
    ensures Entered(index, names, id, r)
  {
    r := index;
    for i := 0 to |names|
      invariant Entered(index, names[..i], id, r)
    {
      assert names[..i + 1] == names[..i] + [names[i]];
      EnterOneMore(index, names[..i], id, r, names[i]);
      r := r[names[i] := At(r, names[i]) + {id}];
    }
    assert names[..|names|] == names;
  }

  lemma UsersOfOneMore(prior: seq<Candidate>, c: Candidate, field: Field, name: Bytes)
    ensures Users(prior + [c], field, name)
         == Users(prior, field, name) + (if Mentions(c, field, name) then {c.id} else {})
  {
    assert forall x :: x in prior + [c] <==> x in prior || x == c;
  }

  lemma EnteredIndexes(index: Holders, prior: seq<Candidate>, c: Candidate, field: Field, names: seq<Bytes>, r: Holders)
    requires Indexes(index, prior, field)
    requires forall name :: name in names <==> Mentions(c, field, name)
    requires Entered(index, names, c.id, r)
    ensures Indexes(r, prior + [c], field)
  {
    forall name
      ensures name in r <==> Users(prior + [c], field, name) != {}
      ensures name in r ==> r[name] == Users(prior + [c], field, name)
    {
      UsersOfOneMore(prior, c, field, name);
      assert At(r, name) == Users(prior + [c], field, name);
    }
  }

  function ResourceNames(claims: seq<Claim>): (r: seq<Bytes>)
    ensures forall name :: name in r <==> exists k :: k in claims && k.resource == name
  {
    if claims == [] then []
    else
      assert claims == claims[..|claims| - 1] + [claims[|claims| - 1]];
      ResourceNames(claims[..|claims| - 1]) + [claims[|claims| - 1].resource]
  }

  lemma SumsOfOneMore(totals: map<Bytes, nat>, prior: seq<Candidate>, init: seq<Claim>, claim: Claim)
    requires Sums(totals, prior, init)
    ensures var seen := if claim.resource in totals then totals[claim.resource] else 0;
      && seen == Total(prior, claim.resource) + Claimed(init, claim.resource)
      && Sums(totals[claim.resource := seen + Units(claim)], prior, init + [claim])
  {
    assert (init + [claim])[..|init|] == init;
  }

  lemma FailureOfOneMore(prior: seq<Candidate>, init: seq<Claim>, claim: Claim, resources: map<Bytes, I64>)
    requires ClaimsFailure(prior, init, resources) == None
    ensures ClaimsFailure(prior, init + [claim], resources)
         == ClaimFailure(claim, resources, Total(prior, claim.resource) + Claimed(init, claim.resource))
  {
    assert (init + [claim])[..|init|] == init;
  }

  lemma NamesOfOneMore(init: seq<Claim>, claim: Claim)
    ensures ResourceNames(init + [claim]) == ResourceNames(init) + [claim.resource]
  {
    assert (init + [claim])[..|init|] == init;
  }

  lemma SumsOfCandidate(totals: map<Bytes, nat>, prior: seq<Candidate>, c: Candidate)
    requires Sums(totals, prior, c.claims)
    ensures Sums(totals, prior + [c], [])
  {
    assert (prior + [c])[..|prior|] == prior;
  }

  lemma NoClaimsYet(prior: seq<Candidate>, claims: seq<Claim>, resources: map<Bytes, I64>, holders: Holders, id: Bytes)
    ensures ClaimsFailure(prior, claims[..0], resources) == None
    ensures Entered(holders, ResourceNames(claims[..0]), id, holders)
    ensures claims[..0] == []
  {
  }

  /** The claims of one candidate: checks each, and keeps the running totals and the holders. */
  method ScanClaims(c: Candidate, resources: map<Bytes, I64>, totals: map<Bytes, nat>, holders: Holders,
                    ghost prior: seq<Candidate>)
    returns (failure: Option<Error>, totals': map<Bytes, nat>, holders': Holders)
    requires Sums(totals, prior, []) && Indexes(holders, prior, Resource)
    ensures failure == ClaimsFailure(prior, c.claims, resources)
    ensures failure == None ==> Sums(totals', prior + [c], []) && Indexes(holders', prior + [c], Resource)
  {
    hide *;
    totals', holders', failure := totals, holders, None;
    NoClaimsYet(prior, c.claims, resources, holders, c.id);
    for i := 0 to |c.claims|
      invariant ClaimsFailure(prior, c.claims[..i], resources) == None
      invariant Sums(totals', prior, c.claims[..i])
      invariant Entered(holders, ResourceNames(c.claims[..i]), c.id, holders')
    {
      var claim := c.claims[i];
      assert c.claims[..i + 1] == c.claims[..i] + [claim];
      FailureOfOneMore(prior, c.claims[..i], claim, resources);
      NamesOfOneMore(c.claims[..i], claim);
      var seen := if claim.resource in totals' then totals'[claim.resource] else 0;
      SumsOfOneMore(totals', prior, c.claims[..i], claim);
      var refused := ClaimFailure(claim, resources, seen);
      if refused.Some? {
        ClaimsFailEarly(prior, c.claims, resources, i + 1);
        return refused, totals', holders';
      }
      totals' := totals'[claim.resource := seen + Units(claim)];
      EnterOneMore(holders, ResourceNames(c.claims[..i]), c.id, holders', claim.resource);
      holders' := holders'[claim.resource := At(holders', claim.resource) + {c.id}];
    }
    assert c.claims[..|c.claims|] == c.claims;
    SumsOfCandidate(totals', prior, c);
    ResourcesEntered(holders, prior, c, holders');
  }

  lemma ResourcesEntered(index: Holders, prior: seq<Candidate>, c: Candidate, r: Holders)
    requires Indexes(index, prior, Resource) && Entered(index, ResourceNames(c.claims), c.id, r)
    ensures Indexes(r, prior + [c], Resource)
  {
    EnteredIndexes(index, prior, c, Resource, ResourceNames(c.claims), r);
  }

  lemma {:induction false} ClaimsFailEarly(prior: seq<Candidate>, claims: seq<Claim>, resources: map<Bytes, I64>, n: nat)
    requires n <= |claims| && ClaimsFailure(prior, claims[..n], resources).Some?
    ensures ClaimsFailure(prior, claims, resources) == ClaimsFailure(prior, claims[..n], resources)
  {
    if n < |claims| {
      assert claims[..|claims| - 1][..n] == claims[..n];
      ClaimsFailEarly(prior, claims[..|claims| - 1], resources, n);
    } else {
      assert claims[..n] == claims;
    }
  }

  lemma {:induction false} ScanFailsEarly(candidates: seq<Candidate>, resources: map<Bytes, I64>, n: nat)
    requires n <= |candidates| && ScanFailure(candidates[..n], resources).Some?
    ensures ScanFailure(candidates, resources) == ScanFailure(candidates[..n], resources)
  {
    if n < |candidates| {
      assert candidates[..|candidates| - 1][..n] == candidates[..n];
      ScanFailsEarly(candidates[..|candidates| - 1], resources, n);
    } else {
      assert candidates[..n] == candidates;
    }
  }

  method AllMachineIds(names: seq<Bytes>) returns (ok: bool)
    ensures ok <==> !exists n :: n in names && !MachineId(n)
  {
    for i := 0 to |names|
      invariant forall j :: 0 <= j < i ==> MachineId(names[j])
    {
      if !MachineId(names[i]) {
        assert names[i] in names;
        return false;
      }
    }
    return true;
  }

  datatype Scanned = Scanned(totals: map<Bytes, nat>, holders: Holders, readers: Holders, writers: Holders,
                             invariants: Holders, ids: set<Bytes>)

  ghost predicate Describes(s: Scanned, candidates: seq<Candidate>) {
    && Sums(s.totals, candidates, [])
    && Indexes(s.holders, candidates, Resource)
    && Indexes(s.readers, candidates, Reads)
    && Indexes(s.writers, candidates, Writes)
    && Indexes(s.invariants, candidates, Invariants)
    && forall id :: id in s.ids <==> Seen(candidates, id)
  }

  method ScanCandidate(s: Scanned, c: Candidate, resources: map<Bytes, I64>, ghost prior: seq<Candidate>)
    returns (failure: Option<Error>, s': Scanned)
    requires Describes(s, prior)
    ensures failure == CandidateFailure(prior, c, resources)
    ensures failure == None ==> Describes(s', prior + [c])
  {
    s' := s;
    if c.id in s.ids || !c.authentic {
      return Some(Provenance), s';
    }
    var totals, holders;
    failure, totals, holders := ScanClaims(c, resources, s.totals, s.holders, prior);
    if failure.Some? {
      return failure, s';
    }
    var readers := Enter(s.readers, c.readRefs, c.id);
    EnteredIndexes(s.readers, prior, c, Reads, c.readRefs, readers);
    var writers := Enter(s.writers, c.writeRefs, c.id);
    EnteredIndexes(s.writers, prior, c, Writes, c.writeRefs, writers);
    var named := AllMachineIds(c.invariants);
    if !named {
      return Some(Provenance), s';
    }
    var invariants := Enter(s.invariants, c.invariants, c.id);
    EnteredIndexes(s.invariants, prior, c, Invariants, c.invariants, invariants);
    s' := Scanned(totals, holders, readers, writers, invariants, s.ids + {c.id});
    assert forall x :: x in prior + [c] <==> x in prior || x == c;
  }

  method Scan(candidates: seq<Candidate>, resources: map<Bytes, I64>) returns (failure: Option<Error>, s: Scanned)
    ensures failure == ScanFailure(candidates, resources)
    ensures failure == None ==> Describes(s, candidates)
  {
    hide CandidateFailure, Indexes, Sums;
    s := Scanned(map[], map[], map[], map[], map[], {});
    NothingScanned(s);
    for i := 0 to |candidates|
      invariant ScanFailure(candidates[..i], resources) == None
      invariant Describes(s, candidates[..i])
    {
      assert candidates[..i + 1] == candidates[..i] + [candidates[i]];
      failure, s := ScanCandidate(s, candidates[i], resources, candidates[..i]);
      if failure.Some? {
        ScanFailsEarly(candidates, resources, i + 1);
        return;
      }
    }
    assert candidates[..|candidates|] == candidates;
    failure := None;
  }

  lemma NothingScanned(s: Scanned)
    requires s == Scanned(map[], map[], map[], map[], map[], {})
    ensures Describes(s, [])
  {
    assert forall field, name :: Users([], field, name) == {};
  }

  // ----- from indexes to conflicts -----

  ghost predicate IsGroup(groups: map<Key, set<Bytes>>, candidates: seq<Candidate>, resources: map<Bytes, I64>, key: Key) {
    && (key in groups <==> Participants(candidates, resources, key) != {})
    && (key in groups ==> groups[key] == Participants(candidates, resources, key))
  }

  /** The groups of one kind are there for every name that is not waiting in `rest`. */
  ghost predicate Grouped(groups: map<Key, set<Bytes>>, candidates: seq<Candidate>, resources: map<Bytes, I64>,
                          kind: nat, rest: set<Bytes>) {
    && (forall key: Key :: key in groups ==> key.kind == kind && key.name !in rest)
    && (forall name :: name !in rest ==> IsGroup(groups, candidates, resources, Key(kind, name)))
  }

  lemma NothingGrouped(s: Scanned, candidates: seq<Candidate>, resources: map<Bytes, I64>)
    requires Describes(s, candidates)
    ensures Grouped(map[], candidates, resources, RESOURCE_CONFLICT, s.holders.Keys)
    ensures Grouped(map[], candidates, resources, ACCESS_CONFLICT, s.writers.Keys)
  {
    forall name | name !in s.holders.Keys ensures IsGroup(map[], candidates, resources, Key(RESOURCE_CONFLICT, name)) {
      UnmentionedIsUngrouped(s.holders, candidates, resources, Resource, name);
    }
    forall name | name !in s.writers.Keys ensures IsGroup(map[], candidates, resources, Key(ACCESS_CONFLICT, name)) {
      UnmentionedIsUngrouped(s.writers, candidates, resources, Writes, name);
    }
  }

  lemma UnmentionedIsUngrouped(index: Holders, candidates: seq<Candidate>, resources: map<Bytes, I64>, field: Field, name: Bytes)
    requires Indexes(index, candidates, field) && name !in index
    ensures field == Resource ==> Participants(candidates, resources, Key(RESOURCE_CONFLICT, name)) == {}
    ensures field == Writes ==> Participants(candidates, resources, Key(ACCESS_CONFLICT, name)) == {}
  {
    hide Users;
    assert Users(candidates, field, name) == {};
  }

  lemma GroupResource(s: Scanned, groups: map<Key, set<Bytes>>, candidates: seq<Candidate>, resources: map<Bytes, I64>,
                      rest: set<Bytes>, name: Bytes)
    requires Describes(s, candidates) && name in s.holders && name in resources && name in rest
    requires Grouped(groups, candidates, resources, RESOURCE_CONFLICT, rest)
    ensures var total := if name in s.totals then s.totals[name] else 0;
            var grouped := if total > resources[name] then groups[Key(RESOURCE_CONFLICT, name) := s.holders[name]] else groups;
            Grouped(grouped, candidates, resources, RESOURCE_CONFLICT, rest - {name})
  {
    hide Users, Total;
    var total := if name in s.totals then s.totals[name] else 0;
    assert total == Total(candidates, name) + Claimed([], name);
    assert name in s.holders <==> Users(candidates, Resource, name) != {};
    var grouped := if total > resources[name] then groups[Key(RESOURCE_CONFLICT, name) := s.holders[name]] else groups;
    forall n | n !in rest - {name} ensures IsGroup(grouped, candidates, resources, Key(RESOURCE_CONFLICT, n)) {
      if n != name {
        assert IsGroup(groups, candidates, resources, Key(RESOURCE_CONFLICT, n));
      }
    }
  }

  lemma DetectMeaning(s: Scanned, candidates: seq<Candidate>, resources: map<Bytes, I64>)
    requires Describes(s, candidates) && ScanFailure(candidates, resources) == None
    ensures forall name :: name in s.holders ==> name in resources
    ensures DetectFailure(candidates, resources)
         == if exists name :: name in s.holders && resources[name] < 0 then Some(Indeterminate) else None
  {
    hide Users;
    HeldResourcesAreKnown(candidates, resources);
  }

  /** Groups of resources drawn beyond their capacity. */
  method ResourceGroups(s: Scanned, resources: map<Bytes, I64>, ghost candidates: seq<Candidate>)
    returns (failure: Option<Error>, groups: map<Key, set<Bytes>>)
    requires Describes(s, candidates) && ScanFailure(candidates, resources) == None
    ensures failure == DetectFailure(candidates, resources)
    ensures failure == None ==> Grouped(groups, candidates, resources, RESOURCE_CONFLICT, {})
  {
    hide *;
    groups := map[];
    DetectMeaning(s, candidates, resources);
    NothingGrouped(s, candidates, resources);
    var rest := s.holders.Keys;
    while rest != {}
      invariant rest <= s.holders.Keys
      invariant forall name :: name in s.holders && name !in rest ==> resources[name] >= 0
      invariant Grouped(groups, candidates, resources, RESOURCE_CONFLICT, rest)
    {
      var name :| name in rest;
      if resources[name] < 0 {
        return Some(Indeterminate), groups;
      }
      GroupResource(s, groups, candidates, resources, rest, name);
      var total := if name in s.totals then s.totals[name] else 0;
      if total > resources[name] {
        groups := groups[Key(RESOURCE_CONFLICT, name) := s.holders[name]];
      }
      rest := rest - {name};
    }
    failure := None;
  }

  lemma GroupAccess(s: Scanned, groups: map<Key, set<Bytes>>, candidates: seq<Candidate>, resources: map<Bytes, I64>,
                    rest: set<Bytes>, name: Bytes)
    requires Describes(s, candidates) && name in s.writers && name in rest
    requires Grouped(groups, candidates, resources, ACCESS_CONFLICT, rest)
    ensures var union := At(s.readers, name) + s.writers[name];
            var grouped := if |union| < 2 then groups else groups[Key(ACCESS_CONFLICT, name) := union];
            Grouped(grouped, candidates, resources, ACCESS_CONFLICT, rest - {name})
  {
    hide Users, Participants, At;
    var union := At(s.readers, name) + s.writers[name];
    AccessParticipants(s, candidates, resources, name);
    var grouped := if |union| < 2 then groups else groups[Key(ACCESS_CONFLICT, name) := union];
    forall n | n !in rest - {name} ensures IsGroup(grouped, candidates, resources, Key(ACCESS_CONFLICT, n)) {
      if n != name {
        assert IsGroup(groups, candidates, resources, Key(ACCESS_CONFLICT, n));
      }
    }
  }

  lemma AccessParticipants(s: Scanned, candidates: seq<Candidate>, resources: map<Bytes, I64>, name: Bytes)
    requires Describes(s, candidates) && name in s.writers
    ensures var union := At(s.readers, name) + s.writers[name];
            && Participants(candidates, resources, Key(ACCESS_CONFLICT, name)) == (if |union| < 2 then {} else union)
            && (|union| >= 2 ==> union != {})
  {
    hide Users, Sums;
    assert name in s.writers <==> Users(candidates, Writes, name) != {};
    assert name in s.readers <==> Users(candidates, Reads, name) != {};
    assert At(s.readers, name) == Users(candidates, Reads, name);
  }

  /** Groups of references that are written and have at least two users. */
  method AccessGroups(s: Scanned, ghost candidates: seq<Candidate>, ghost resources: map<Bytes, I64>)
    returns (groups: map<Key, set<Bytes>>)
    requires Describes(s, candidates)
    ensures Grouped(groups, candidates, resources, ACCESS_CONFLICT, {})
  {
    hide Describes, Grouped;
    groups := map[];
    NothingGrouped(s, candidates, resources);
    var rest := s.writers.Keys;
    while rest != {}
      invariant rest <= s.writers.Keys
      invariant Grouped(groups, candidates, resources, ACCESS_CONFLICT, rest)
    {
      var ref :| ref in rest;
      GroupAccess(s, groups, candidates, resources, rest, ref);
      var union := At(s.readers, ref) + s.writers[ref];
      if |union| >= 2 {
        groups := groups[Key(ACCESS_CONFLICT, ref) := union];
      }
      rest := rest - {ref};
    }
  }

  function InvariantGroups(s: Scanned): map<Key, set<Bytes>> {
    map name | name in s.invariants :: Key(INVARIANT_CONFLICT, name) := s.invariants[name]
  }

  lemma InvariantsGrouped(s: Scanned, candidates: seq<Candidate>, resources: map<Bytes, I64>)
    requires Describes(s, candidates)
    ensures Grouped(InvariantGroups(s), candidates, resources, INVARIANT_CONFLICT, {})
  {
    hide Users;
  }

  lemma {:induction false} HeldResourcesAreKnown(candidates: seq<Candidate>, resources: map<Bytes, I64>)
    requires ScanFailure(candidates, resources) == None
    ensures forall name :: Users(candidates, Resource, name) != {} ==> name in resources
  {
    if candidates != [] {
      var init, last := candidates[..|candidates| - 1], candidates[|candidates| - 1];
      assert candidates == init + [last];
      HeldResourcesAreKnown(init, resources);
      AcceptedClaims(init, last.claims, resources);
      forall name | Users(candidates, Resource, name) != {} ensures name in resources {
        UsersOfOneMore(init, last, Resource, name);
      }
    }
  }

  /** What an accepted list of claims looks like. */
  predicate ClaimIsSound(claim: Claim, resources: map<Bytes, I64>) {
    MachineId(claim.resource) && claim.mode == 1 && PositiveAmount(claim.amount).Some? && claim.resource in resources
  }

  lemma {:induction false} AcceptedClaims(prior: seq<Candidate>, claims: seq<Claim>, resources: map<Bytes, I64>)
    ensures ClaimsFailure(prior, claims, resources) == None <==>
            && (forall k :: k in claims ==> ClaimIsSound(k, resources))
            && (forall k :: k in claims ==> Total(prior, k.resource) + Claimed(claims, k.resource) <= MAX_I64)
  {
    if claims != [] {
      var init, last := claims[..|claims| - 1], claims[|claims| - 1];
      assert claims == init + [last];
      AcceptedClaims(prior, init, resources);
      if ClaimIsSound(last, resources) {
        assert Claimed(claims, last.resource) == Claimed(init, last.resource) + Units(last);
        assert forall k :: k in claims && k.resource != last.resource ==> Claimed(claims, k.resource) == Claimed(init, k.resource);
        assert forall k :: Claimed(claims, k) >= Claimed(init, k);
      }
    }
  }

  // ----- the conflicts -----

  ghost predicate AllGroups(groups: map<Key, set<Bytes>>, candidates: seq<Candidate>, resources: map<Bytes, I64>) {
    forall key :: IsGroup(groups, candidates, resources, key)
  }

  lemma MergeGroups(r: map<Key, set<Bytes>>, a: map<Key, set<Bytes>>, i: map<Key, set<Bytes>>,
                    candidates: seq<Candidate>, resources: map<Bytes, I64>)
    requires Grouped(r, candidates, resources, RESOURCE_CONFLICT, {})
    requires Grouped(a, candidates, resources, ACCESS_CONFLICT, {})
    requires Grouped(i, candidates, resources, INVARIANT_CONFLICT, {})
    ensures AllGroups(r + a + i, candidates, resources)
  {
    hide Participants;
    forall key ensures IsGroup(r + a + i, candidates, resources, key) {
      OtherKinds(candidates, resources, key);
      assert key == Key(key.kind, key.name);
      if key.kind == RESOURCE_CONFLICT {
        assert IsGroup(r, candidates, resources, key);
      } else if key.kind == ACCESS_CONFLICT {
        assert IsGroup(a, candidates, resources, key);
      } else if key.kind == INVARIANT_CONFLICT {
        assert IsGroup(i, candidates, resources, key);
      }
    }
  }

  lemma OtherKinds(candidates: seq<Candidate>, resources: map<Bytes, I64>, key: Key)
    ensures key.kind > INVARIANT_CONFLICT ==> Participants(candidates, resources, key) == {}
  {
  }

  lemma ConflictsHaveGroups(groups: map<Key, set<Bytes>>, derive: (seq<Bytes>, Key) -> Bytes,
                            candidates: seq<Candidate>, resources: map<Bytes, I64>)
    requires AllGroups(groups, candidates, resources)
    ensures forall c :: IsConflict(candidates, resources, derive, c) ==> c.key in groups
  {
    hide Participants;
    forall c | IsConflict(candidates, resources, derive, c) ensures c.key in groups {
      assert IsGroup(groups, candidates, resources, c.key);
    }
  }

  method CollectConflicts(groups: map<Key, set<Bytes>>, derive: (seq<Bytes>, Key) -> Bytes,
                          ghost candidates: seq<Candidate>, ghost resources: map<Bytes, I64>)
    returns (list: seq<Conflict>)
    requires AllGroups(groups, candidates, resources) && Injective(derive)
    ensures IsConflictList(candidates, resources, derive, list)
  {
    hide Participants, Less;
    BytesAreOrdered();
    ConflictsHaveGroups(groups, derive, candidates, resources);
    var found: set<Conflict>, rest := {}, groups.Keys;
    while rest != {}
      invariant rest <= groups.Keys
      invariant forall c :: c in found <==> IsConflict(candidates, resources, derive, c) && c.key !in rest
    {
      var key :| key in rest;
      assert IsGroup(groups, candidates, resources, key);
      if |groups[key]| >= 2 {
        var ids := SortSet(Less, groups[key]);
        var c := Conflict(derive(ids, key), ids, key);
        OneConflict(candidates, resources, derive, c);
        found := found + {c};
      }
      rest := rest - {key};
    }
    ConflictsAreOrdered(found);
    list := SortSet(ConflictLess, found);
  }

  lemma OneConflict(candidates: seq<Candidate>, resources: map<Bytes, I64>, derive: (seq<Bytes>, Key) -> Bytes, c: Conflict)
    requires IsConflict(candidates, resources, derive, c)
    ensures forall d :: IsConflict(candidates, resources, derive, d) && d.key == c.key ==> d == c
  {
    BytesAreOrdered();
    forall d | IsConflict(candidates, resources, derive, d) && d.key == c.key ensures d == c {
      StrictlySortedUnique(Less, c.members, d.members);
    }
  }

  lemma ConflictsAreOrdered(found: set<Conflict>)
    requires forall c, d :: c in found && d in found && c != d ==> c.id != d.id
    ensures StrictOrder(ConflictLess)
    ensures forall c, d :: c in found && d in found && c != d ==> ConflictLess(c, d) || ConflictLess(d, c)
  {
    BytesAreOrdered();
  }

  /** Detects every conflict, or says why it cannot. */
  method DetectClaims(candidates: seq<Candidate>, resources: map<Bytes, I64>, derive: (seq<Bytes>, Key) -> Bytes)
    returns (r: Result<seq<Conflict>, Error>)
    requires Injective(derive)
    ensures r.Err? <==> DetectFailure(candidates, resources).Some?
    ensures r.Err? ==> Some(r.error) == DetectFailure(candidates, resources)
    ensures r.Ok? ==> IsConflictList(candidates, resources, derive, r.value)
  {
    hide *;
    var failure, s := Scan(candidates, resources);
    ScanDecides(candidates, resources);
    if failure.Some? {
      return Err(failure.value);
    }
    var overdrawn;
    failure, overdrawn := ResourceGroups(s, resources, candidates);
    if failure.Some? {
      return Err(failure.value);
    }
    var accessed := AccessGroups(s, candidates, resources);
    var bound := InvariantGroups(s);
    InvariantsGrouped(s, candidates, resources);
    MergeGroups(overdrawn, accessed, bound, candidates, resources);
    var list := CollectConflicts(overdrawn + accessed + bound, derive, candidates, resources);
    return Ok(list);
  }

  lemma ScanDecides(candidates: seq<Candidate>, resources: map<Bytes, I64>)
    ensures ScanFailure(candidates, resources).Some? ==>
              DetectFailure(candidates, resources) == ScanFailure(candidates, resources)
  {
  }
}

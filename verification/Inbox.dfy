/** The addressed inbox: every observation paired with its one knowledge input, in causal order. */
module Inbox {
  import opened Bytes
  import opened Domain
  import opened Sorting

  datatype Actor = Actor(kind: Bytes, name: Bytes)

  datatype Channel = RoundLifecycle | Message | OtherChannel(name: Bytes)

  /** `authentic` covers the record's shape, identity, digest and its one registered percept;
      `channel` is the one the percept implies. */
  datatype Observation = Observation(id: Bytes, actor: Actor, time: Option<I64>, channel: Channel,
                                     claims: Bytes, evidence: Bytes, digest: Bytes, authentic: bool)

  /** `authentic` covers shape, ordinals and digest. */
  datatype Input = Input(id: Bytes, actor: Actor, time: Option<I64>, modality: nat, channel: Channel,
                         observation: Bytes, observationDigest: Bytes, claims: Bytes, evidence: Bytes, authentic: bool)

  datatype Entry = Entry(observation: Observation, input: Input, receivedAt: I64)

  /** The identity of an input: a hash of the observation, the actor and the modality. */
  type Derive = (Bytes, Actor, nat) -> Bytes

  ghost predicate Injective(derive: Derive) {
    forall a, p, m, b, q, n :: derive(a, p, m) == derive(b, q, n) ==> a == b && p == q && m == n
  }

  predicate IsAddressed(o: Observation, actor: Actor) {
    o.authentic && o.actor == actor && o.time.Some?
  }

  function ModalityOf(c: Channel): nat {
    if c == Message then 1 else 0
  }

  /** An input repeats what its observation says and nothing more. */
  predicate Confirms(derive: Derive, i: Input, o: Observation, actor: Actor) {
    && i.authentic && i.actor == actor
    && i.observation == o.id && i.observationDigest == o.digest
    && i.modality == ModalityOf(o.channel) && i.channel == o.channel
    && i.time == o.time
    && i.claims == o.claims && i.evidence == o.evidence
    && i.id == derive(i.observation, i.actor, i.modality)
  }

  function ObservationId(o: Observation): Bytes {
    o.id
  }

  function ReferenceOf(i: Input): Bytes {
    i.observation
  }

  function InputId(i: Input): Bytes {
    i.id
  }

  function Find(observations: seq<Observation>, id: Bytes): (r: Option<Observation>)
    ensures r.Some? ==> r.value in observations && r.value.id == id
    ensures r == None ==> forall o :: o in observations ==> o.id != id
  {
    if observations == [] then None
    else
      var init, last := observations[..|observations| - 1], observations[|observations| - 1];
      assert observations == init + [last];
      if last.id == id then Some(last) else Find(init, id)
  }

  predicate InputIsGood(derive: Derive, observations: seq<Observation>, i: Input, actor: Actor) {
    Find(observations, i.observation).Some? && Confirms(derive, i, Find(observations, i.observation).value, actor)
  }

  /** What the two lists must satisfy: distinct addressed observations, each confirmed by exactly
      one input, and no other inputs. */
  ghost predicate Acceptable(derive: Derive, actor: Actor, observations: seq<Observation>, inputs: seq<Input>) {
    && actor.kind != [] && actor.name != []
    && (forall o :: o in observations ==> IsAddressed(o, actor))
    && DistinctBy(ObservationId, observations)
    && (forall i :: i in inputs ==> InputIsGood(derive, observations, i, actor))
    && DistinctBy(ReferenceOf, inputs)
    && |inputs| == |observations|
  }

  function EntryOf(observations: seq<Observation>, i: Input): Option<Entry> {
    match Find(observations, i.observation)
    case None => None
    case Some(o) => if o.time == None then None else Some(Entry(o, i, o.time.value))
  }

  function Entries(observations: seq<Observation>, inputs: seq<Input>): seq<Entry> {
    if inputs == [] then []
    else
      var init, last := inputs[..|inputs| - 1], inputs[|inputs| - 1];
      Entries(observations, init)
      + match EntryOf(observations, last) {
          case None => []
          case Some(e) => [e]
        }
  }

  /** By time of receipt, then by identity of the input. */
  predicate EntryLess(a: Entry, b: Entry) {
    if a.receivedAt != b.receivedAt then a.receivedAt < b.receivedAt else Less(a.input.id, b.input.id)
  }

  function EntryKey(e: Entry): (I64, Bytes) {
    (e.receivedAt, e.input.id)
  }

  lemma EntriesAreOrdered()
    ensures Orders(EntryLess, EntryKey)
  {
    forall b: Bytes ensures !Less(b, b) {
      LessIrreflexive(b);
    }
    forall a, b, c | Less(a, b) && Less(b, c) ensures Less(a, c) {
      LessTransitive(a, b, c);
    }
    forall a, b ensures Less(a, b) || a == b || Less(b, a) {
      LessTotal(a, b);
    }
  }

  // ----- building it -----

  /** Checks the observations and indexes them by identity. */
  method Index(observations: seq<Observation>, actor: Actor) returns (ok: bool, byId: map<Bytes, Observation>)
    ensures ok <==> (forall o :: o in observations ==> IsAddressed(o, actor)) && DistinctBy(ObservationId, observations)
    ensures ok ==> |byId| == |observations|
    ensures ok ==> forall id :: (id in byId <==> Find(observations, id).Some?)
                                && (id in byId ==> byId[id] == Find(observations, id).value)
  {
    hide DistinctBy, IsAddressed, Find;
    byId := map[];
    NothingIndexed();
    assert observations[..0] == [];
    for k := 0 to |observations|
      invariant forall o :: o in observations[..k] ==> IsAddressed(o, actor)
      invariant DistinctBy(ObservationId, observations[..k])
      invariant |byId| == k
      invariant forall id :: (id in byId <==> Find(observations[..k], id).Some?)
                             && (id in byId ==> byId[id] == Find(observations[..k], id).value)
    {
      var o := observations[k];
      assert observations[..k + 1] == observations[..k] + [o] && o in observations;
      DistinctOneMore(ObservationId, observations[..k], o);
      DistinctPrefix(ObservationId, observations, k + 1);
      FindOneMore(observations[..k], o);
      if !IsAddressed(o, actor) || o.id in byId {
        return false, byId;
      }
      byId := byId[o.id := o];
    }
    assert observations[..|observations|] == observations;
    ok := true;
  }

  lemma NothingIndexed()
    ensures DistinctBy(ObservationId, []) && DistinctBy(ReferenceOf, [])
    ensures KeySet(ReferenceOf, []) == {}
    ensures forall id :: Find([], id) == None
  {
  }

  lemma FindOneMore(init: seq<Observation>, o: Observation)
    ensures forall id :: Find(init + [o], id) == if o.id == id then Some(o) else Find(init, id)
    ensures Find(init, o.id).Some? <==> exists x :: x in init && ObservationId(x) == ObservationId(o)
  {
    assert (init + [o])[..|init|] == init;
  }

  /** Checks each input against the observation it refers to, which no other may have used. */
  method Pair(derive: Derive, byId: map<Bytes, Observation>, inputs: seq<Input>, actor: Actor, ghost observations: seq<Observation>)
    returns (ok: bool, inbox: seq<Entry>, used: nat)
    requires forall o :: o in observations ==> IsAddressed(o, actor)
    requires forall id :: (id in byId <==> Find(observations, id).Some?)
                          && (id in byId ==> byId[id] == Find(observations, id).value)
    ensures ok <==> (forall i :: i in inputs ==> InputIsGood(derive, observations, i, actor)) && DistinctBy(ReferenceOf, inputs)
    ensures ok ==> inbox == Entries(observations, inputs) && used == |inputs|
  {
    hide DistinctBy, Confirms, Entries, Find, KeySet;
    var seen: set<Bytes> := {};
    inbox := [];
    NothingIndexed();
    NoEntries(observations);
    assert inputs[..0] == [];
    for k := 0 to |inputs|
      invariant forall i :: i in inputs[..k] ==> InputIsGood(derive, observations, i, actor)
      invariant DistinctBy(ReferenceOf, inputs[..k])
      invariant seen == KeySet(ReferenceOf, inputs[..k])
      invariant inbox == Entries(observations, inputs[..k])
    {
      var i := inputs[k];
      assert inputs[..k + 1] == inputs[..k] + [i] && i in inputs;
      DistinctOneMore(ReferenceOf, inputs[..k], i);
      DistinctPrefix(ReferenceOf, inputs, k + 1);
      KeySetOneMore(ReferenceOf, inputs[..k], i);
      KeyIsIn(ReferenceOf, inputs[..k], i);
      if i.observation !in byId || i.observation in seen || !Confirms(derive, i, byId[i.observation], actor) {
        return false, inbox, 0;
      }
      EntriesOneMore(observations, inputs[..k], i);
      assert byId[i.observation] in observations by {
        FoundIsListed(observations, i.observation);
      }
      inbox := inbox + [Entry(byId[i.observation], i, byId[i.observation].time.value)];
      seen := seen + {i.observation};
    }
    assert inputs[..|inputs|] == inputs;
    Pigeonhole(ReferenceOf, inputs);
    ok, used := true, |seen|;
  }

  lemma FoundIsListed(observations: seq<Observation>, id: Bytes)
    ensures Find(observations, id).Some? ==> Find(observations, id).value in observations && Find(observations, id).value.id == id
  {
  }

  lemma NoEntries(observations: seq<Observation>)
    ensures Entries(observations, []) == []
  {
  }

  lemma EntriesOneMore(observations: seq<Observation>, init: seq<Input>, i: Input)
    ensures EntryOf(observations, i).Some? ==>
              Entries(observations, init + [i]) == Entries(observations, init) + [EntryOf(observations, i).value]
  {
    assert (init + [i])[..|init|] == init;
  }

  method Build(derive: Derive, actor: Actor, observations: seq<Observation>, inputs: seq<Input>) returns (r: Option<seq<Entry>>)
    requires Injective(derive)
    ensures r.Some? <==> Acceptable(derive, actor, observations, inputs)
    ensures r.Some? ==> r.value == Sort(EntryLess, Entries(observations, inputs))
  {
    hide IsAddressed, InputIsGood, DistinctBy, Entries, Sort, EntryLess;
    if |actor.kind| == 0 || |actor.name| == 0 {
      return None;
    }
    var ok, byId := Index(observations, actor);
    if !ok {
      return None;
    }
    var paired, inbox, used := Pair(derive, byId, inputs, actor, observations);
    if !paired || used != |byId| {
      return None;
    }
    EntriesAreOrdered();
    KeysAreDistinct(derive, actor, observations, inputs);
    DistinctIsTotal(EntryLess, EntryKey, inbox);
    var sorted := SortSlice(EntryLess, inbox);
    SortedIsSort(EntryLess, inbox, sorted);
    return Some(sorted);
  }

  // ----- what the inbox is -----

  lemma {:induction false} EntriesPairInputs(derive: Derive, actor: Actor, observations: seq<Observation>, inputs: seq<Input>)
    requires forall o :: o in observations ==> IsAddressed(o, actor)
    requires forall i :: i in inputs ==> InputIsGood(derive, observations, i, actor)
    ensures |Entries(observations, inputs)| == |inputs|
    ensures forall k :: 0 <= k < |inputs| ==>
              var e := Entries(observations, inputs)[k];
              && e.input == inputs[k] && Find(observations, inputs[k].observation) == Some(e.observation)
              && Some(e.receivedAt) == e.observation.time
  {
    hide Confirms;
    if inputs != [] {
      var init, last := inputs[..|inputs| - 1], inputs[|inputs| - 1];
      assert inputs == init + [last];
      EntriesPairInputs(derive, actor, observations, init);
      assert last in inputs;
      FoundIsListed(observations, last.observation);
      EntriesOneMore(observations, init, last);
    }
  }

  /** Distinct references make distinct identities, so no two entries tie. */
  lemma KeysAreDistinct(derive: Derive, actor: Actor, observations: seq<Observation>, inputs: seq<Input>)
    requires Injective(derive)
    requires forall o :: o in observations ==> IsAddressed(o, actor)
    requires forall i :: i in inputs ==> InputIsGood(derive, observations, i, actor)
    requires DistinctBy(ReferenceOf, inputs)
    ensures DistinctBy(EntryKey, Entries(observations, inputs))
    ensures DistinctBy(InputId, inputs)
  {
    hide Entries, Find;
    EntriesPairInputs(derive, actor, observations, inputs);
    var entries := Entries(observations, inputs);
    forall j, k | 0 <= j < k < |inputs| ensures inputs[j].id != inputs[k].id && EntryKey(entries[j]) != EntryKey(entries[k]) {
      assert ReferenceOf(inputs[j]) != ReferenceOf(inputs[k]);
      assert inputs[j] in inputs && inputs[k] in inputs;
    }
  }

  lemma ReferencesCoverObservations(derive: Derive, actor: Actor, observations: seq<Observation>, inputs: seq<Input>)
    requires Acceptable(derive, actor, observations, inputs)
    ensures forall o :: o in observations ==> exists i :: i in inputs && i.observation == o.id
  {
    hide Confirms, DistinctBy, Find, IsAddressed;
    var ids, refs := KeySet(ObservationId, observations), KeySet(ReferenceOf, inputs);
    Pigeonhole(ObservationId, observations);
    Pigeonhole(ReferenceOf, inputs);
    forall i | i in inputs ensures i.observation in ids {
      assert InputIsGood(derive, observations, i, actor);
      FoundIsListed(observations, i.observation);
    }
    SameSizeSubset(refs, ids);
    forall o | o in observations ensures exists i :: i in inputs && i.observation == o.id {
      assert ObservationId(o) in refs;
    }
  }

  /** An entry holds an observation of the list and the input of the list that confirms it. */
  ghost predicate IsPair(derive: Derive, actor: Actor, observations: seq<Observation>, inputs: seq<Input>, e: Entry) {
    && e.observation in observations && e.input in inputs
    && Confirms(derive, e.input, e.observation, actor)
    && e.observation.time == Some(e.receivedAt)
  }

  lemma EntriesArePairs(derive: Derive, actor: Actor, observations: seq<Observation>, inputs: seq<Input>)
    requires Acceptable(derive, actor, observations, inputs)
    ensures forall e :: e in Entries(observations, inputs) ==> IsPair(derive, actor, observations, inputs, e)
    ensures forall i :: i in inputs ==> exists e :: e in Entries(observations, inputs) && e.input == i
  {
    hide Confirms, Entries, Find, IsAddressed, DistinctBy;
    var entries := Entries(observations, inputs);
    EntriesPairInputs(derive, actor, observations, inputs);
    forall e | e in entries ensures IsPair(derive, actor, observations, inputs, e) {
      var k :| 0 <= k < |entries| && entries[k] == e;
      assert inputs[k] in inputs && InputIsGood(derive, observations, inputs[k], actor);
      FoundIsListed(observations, inputs[k].observation);
    }
    forall i | i in inputs ensures exists e :: e in entries && e.input == i {
      var k :| 0 <= k < |inputs| && inputs[k] == i;
      assert entries[k] in entries;
    }
  }

  /** An accepted inbox pairs the observations with the inputs one to one, strictly in order of
      receipt and identity. */
  lemma InboxIsAPairing(derive: Derive, actor: Actor, observations: seq<Observation>, inputs: seq<Input>, inbox: seq<Entry>)
    requires Injective(derive) && Acceptable(derive, actor, observations, inputs)
    requires inbox == Sort(EntryLess, Entries(observations, inputs))
    ensures |inbox| == |observations| == |inputs|
    ensures StrictlySorted(EntryLess, inbox)
    ensures forall e :: e in inbox ==> IsPair(derive, actor, observations, inputs, e)
    ensures forall o :: o in observations ==> exists e :: e in inbox && e.observation == o
    ensures forall i :: i in inputs ==> exists e :: e in inbox && e.input == i
    ensures forall e, f :: e in inbox && f in inbox && (e.observation == f.observation || e.input == f.input) ==> e == f
  {
    hide IsPair, EntryLess, Entries, InputIsGood, Sort, IsAddressed, DistinctBy, StrictlySorted;
    var entries := Entries(observations, inputs);
    EntriesPairInputs(derive, actor, observations, inputs);
    KeysAreDistinct(derive, actor, observations, inputs);
    SameMembers(inbox, entries);
    InboxIsStrict(entries);
    EntriesArePairs(derive, actor, observations, inputs);
    EveryObservationIsPaired(derive, actor, observations, inputs, inbox);
    forall e, f | e in inbox && f in inbox && (e.observation == f.observation || e.input == f.input) ensures e == f {
      EntriesDiffer(derive, actor, observations, inputs, e, f);
    }
  }

  lemma InboxIsStrict(entries: seq<Entry>)
    requires DistinctBy(EntryKey, entries)
    ensures StrictlySorted(EntryLess, Sort(EntryLess, entries))
  {
    hide EntryLess, EntryKey, Sort;
    EntriesAreOrdered();
    var sorted := Sort(EntryLess, entries);
    SortSorted(EntryLess, entries);
    DistinctIgnoresOrder(EntryKey, entries, sorted);
    forall j, k | 0 <= j < k < |sorted| ensures EntryLess(sorted[j], sorted[k]) {
      assert EntryKey(sorted[j]) != EntryKey(sorted[k]);
      assert !EntryLess(sorted[k], sorted[j]);
    }
  }

  lemma EveryObservationIsPaired(derive: Derive, actor: Actor, observations: seq<Observation>, inputs: seq<Input>, inbox: seq<Entry>)
    requires Acceptable(derive, actor, observations, inputs)
    requires forall e :: e in inbox <==> e in Entries(observations, inputs)
    ensures forall o :: o in observations ==> exists e :: e in inbox && e.observation == o
  {
    hide Confirms, Entries, IsAddressed;
    var entries := Entries(observations, inputs);
    EntriesPairInputs(derive, actor, observations, inputs);
    ReferencesCoverObservations(derive, actor, observations, inputs);
    forall o | o in observations ensures exists e :: e in inbox && e.observation == o {
      var i :| i in inputs && i.observation == o.id;
      var k :| 0 <= k < |inputs| && inputs[k] == i;
      OneObservation(observations, o, entries[k].observation);
      assert entries[k] in inbox;
    }
  }

  lemma OneObservation(observations: seq<Observation>, o: Observation, p: Observation)
    requires DistinctBy(ObservationId, observations) && o in observations && p in observations && o.id == p.id
    ensures o == p
  {
    var j :| 0 <= j < |observations| && observations[j] == o;
    var k :| 0 <= k < |observations| && observations[k] == p;
    assert ObservationId(observations[j]) == ObservationId(observations[k]);
  }

  lemma EntriesDiffer(derive: Derive, actor: Actor, observations: seq<Observation>, inputs: seq<Input>, e: Entry, f: Entry)
    requires Acceptable(derive, actor, observations, inputs)
    requires e in Entries(observations, inputs) && f in Entries(observations, inputs)
    requires e.observation == f.observation || e.input == f.input
    ensures e == f
  {
    hide Confirms, Entries, IsAddressed;
    var entries := Entries(observations, inputs);
    EntriesPairInputs(derive, actor, observations, inputs);
    var j :| 0 <= j < |entries| && entries[j] == e;
    var k :| 0 <= k < |entries| && entries[k] == f;
    assert Find(observations, inputs[j].observation).value.id == inputs[j].observation;
    assert Find(observations, inputs[k].observation).value.id == inputs[k].observation;
    assert ReferenceOf(inputs[j]) == ReferenceOf(inputs[k]);
  }

  // ----- order independence -----

  lemma FindIgnoresOrder(a: seq<Observation>, b: seq<Observation>, id: Bytes)
    requires multiset(a) == multiset(b) && DistinctBy(ObservationId, a)
    ensures Find(a, id) == Find(b, id)
  {
    SameMembers(a, b);
    if Find(a, id).Some? && Find(b, id).Some? {
      OneObservation(a, Find(a, id).value, Find(b, id).value);
    }
  }

  lemma {:induction false} EntriesAppend(observations: seq<Observation>, a: seq<Input>, b: seq<Input>)
    ensures Entries(observations, a + b) == Entries(observations, a) + Entries(observations, b)
  {
    if b == [] {
      assert a + b == a;
    } else {
      assert (a + b)[..|a + b| - 1] == a + b[..|b| - 1];
      EntriesAppend(observations, a, b[..|b| - 1]);
    }
  }

  lemma EntriesAround(observations: seq<Observation>, front: seq<Input>, x: Input, back: seq<Input>)
    ensures multiset(Entries(observations, front + [x] + back))
         == multiset(Entries(observations, front + back)) + multiset(Entries(observations, [x]))
  {
    hide Entries;
    EntriesAppend(observations, front, back);
    EntriesAppend(observations, front, [x]);
    EntriesAppend(observations, front + [x], back);
  }

  lemma {:induction false} EntriesPermutation(observations: seq<Observation>, a: seq<Input>, b: seq<Input>)
    requires multiset(a) == multiset(b)
    ensures multiset(Entries(observations, a)) == multiset(Entries(observations, b))
  {
    hide Entries;
    SameMembers(a, b);
    if a == [] {
      assert a == b;
    } else {
      var init, last := a[..|a| - 1], a[|a| - 1];
      assert a == init + [last] + [] && last in b;
      var k :| 0 <= k < |b| && b[k] == last;
      var front, back := b[..k], b[k + 1..];
      assert b == front + [last] + back;
      TakeOneAway(init, [], front, back, last);
      assert init + [] == init;
      EntriesPermutation(observations, init, front + back);
      EntriesAround(observations, init, last, []);
      EntriesAround(observations, front, last, back);
    }
  }

  lemma {:induction false} EntriesIgnoreObservationOrder(a: seq<Observation>, b: seq<Observation>, inputs: seq<Input>)
    requires multiset(a) == multiset(b) && DistinctBy(ObservationId, a)
    ensures Entries(a, inputs) == Entries(b, inputs)
  {
    hide Find;
    if inputs != [] {
      EntriesIgnoreObservationOrder(a, b, inputs[..|inputs| - 1]);
      FindIgnoresOrder(a, b, inputs[|inputs| - 1].observation);
    }
  }

  /** Neither acceptance nor the inbox depends on the order of the two lists that were read. */
  lemma InboxIgnoresOrder(derive: Derive, actor: Actor, oa: seq<Observation>, ob: seq<Observation>, ia: seq<Input>, ib: seq<Input>)
    requires Injective(derive) && multiset(oa) == multiset(ob) && multiset(ia) == multiset(ib)
    ensures Acceptable(derive, actor, oa, ia) ==>
              Acceptable(derive, actor, ob, ib) && Sort(EntryLess, Entries(oa, ia)) == Sort(EntryLess, Entries(ob, ib))
  {
    hide Confirms, Find, Entries, Sort, EntryLess, EntryKey, IsAddressed;
    if Acceptable(derive, actor, oa, ia) {
      SameMembers(oa, ob);
      SameMembers(ia, ib);
      DistinctIgnoresOrder(ObservationId, oa, ob);
      DistinctIgnoresOrder(ReferenceOf, ia, ib);
      forall i | i in ib ensures InputIsGood(derive, ob, i, actor) {
        FindIgnoresOrder(oa, ob, i.observation);
        assert InputIsGood(derive, oa, i, actor);
      }
      EntriesIgnoreObservationOrder(oa, ob, ib);
      EntriesPermutation(oa, ia, ib);
      EntriesAreOrdered();
      KeysAreDistinct(derive, actor, oa, ia);
      DistinctIsTotal(EntryLess, EntryKey, Entries(oa, ia));
      SortPermutation(EntryLess, Entries(oa, ia), Entries(ob, ib));
    }
  }
}

/** Lists of causal references: how they are written, and how they are checked when read. */
module References {
  import opened Bytes
  import opened Domain
  import opened Sorting

  datatype Reference = Reference(kind: nat, id: Bytes, digest: Bytes)

  const MAX_REFERENCES := 1024
  const MAX_KIND: nat := 27

  predicate IsHash(b: Bytes) {
    |b| == 32 && exists i :: 0 <= i < 32 && b[i] != 0
  }

  predicate OfKind(r: Reference, kind: Option<nat>) {
    kind == None || r.kind == kind.value
  }

  /** Kind, identity, digest. */
  predicate ReferenceLess(a: Reference, b: Reference) {
    if a.kind != b.kind then a.kind < b.kind
    else if a.id != b.id then Less(a.id, b.id)
    else Less(a.digest, b.digest)
  }

  function IdOf(r: Reference): Bytes {
    r.id
  }

  /** What a list must satisfy to be written. */
  ghost predicate Writable(values: seq<Reference>, kind: Option<nat>) {
    && |values| <= MAX_REFERENCES
    && (forall r :: r in values ==> OfKind(r, kind) && IsHash(r.id) && IsHash(r.digest))
    && DistinctBy(IdOf, values)
  }

  /** What a list must satisfy to be read: also known kinds, and the canonical order. */
  ghost predicate Canonical(values: seq<Reference>, kind: Option<nat>) {
    && Writable(values, kind)
    && (forall r :: r in values ==> r.kind <= MAX_KIND)
    && StrictlySorted(ReferenceLess, values)
  }

  lemma ReferencesAreOrdered()
    ensures StrictOrder(ReferenceLess)
    ensures forall a, b :: ReferenceLess(a, b) || a == b || ReferenceLess(b, a)
  {
    forall b: Bytes ensures !Less(b, b) {
      LessIrreflexive(b);
    }
    forall a, b, c | Less(a, b) && Less(b, c) ensures Less(a, c) {
      LessTransitive(a, b, c);
    }
    forall a, b ensures Less(a, b) || a == b || Less(b, a) {
      LessTotal(a, b);
    }
  }

  /** Sorts a copy, then refuses wrong kinds, empty hashes and repeated identities. */
  method Refs(values: seq<Reference>, kind: Option<nat>) returns (r: Option<seq<Reference>>)
    ensures r.Some? <==> Writable(values, kind)
    ensures r.Some? ==> r.value == Sort(ReferenceLess, values)
  {
    hide ReferenceLess, IsHash, Sort, DistinctBy, OfKind, HasId;
    if |values| > MAX_REFERENCES {
      return None;
    }
    ReferencesAreOrdered();
    var sorted := SortSlice(ReferenceLess, values);
    SameMembers(sorted, values);
    DistinctIgnoresOrder(IdOf, values, sorted);
    DistinctIgnoresOrder(IdOf, sorted, values);
    SortedIsSort(ReferenceLess, values, sorted);
    var seen := {};
    assert sorted[..0] == [];
    NothingRepeats();
    for i := 0 to |sorted|
      invariant forall x :: x in sorted[..i] ==> OfKind(x, kind) && IsHash(x.id) && IsHash(x.digest)
      invariant forall id :: id in seen <==> HasId(sorted[..i], id)
      invariant DistinctBy(IdOf, sorted[..i])
    {
      var v := sorted[i];
      assert sorted[..i + 1] == sorted[..i] + [v] && v in values;
      DistinctOneMore(IdOf, sorted[..i], v);
      HasIdOneMore(sorted[..i], v);
      DistinctPrefix(IdOf, sorted, i + 1);
      if !OfKind(v, kind) || !IsHash(v.id) || !IsHash(v.digest) || v.id in seen {
        return None;
      }
      seen := seen + {v.id};
    }
    assert sorted[..|sorted|] == sorted;
    return Some(sorted);
  }

  ghost predicate HasId(values: seq<Reference>, id: Bytes) {
    exists x :: x in values && x.id == id
  }

  lemma HasIdOneMore(values: seq<Reference>, x: Reference)
    ensures forall id :: HasId(values + [x], id) <==> HasId(values, id) || id == x.id
    ensures HasId(values, x.id) <==> exists y :: y in values && IdOf(y) == IdOf(x)
  {
    assert x in values + [x];
    assert forall y :: y in values + [x] <==> y in values || y == x;
  }

  lemma NothingRepeats()
    ensures DistinctBy(IdOf, []) && Neighbours([])
    ensures forall id :: !HasId([], id)
  {
  }

  /** Accepts exactly the canonical lists, comparing each reference with the one before it. */
  method ValidateRefArray(values: seq<Reference>, kind: Option<nat>) returns (r: Option<seq<Reference>>)
    ensures r.Some? <==> Canonical(values, kind)
    ensures r.Some? ==> r.value == values
  {
    hide IsHash, DistinctBy, OfKind, Less, HasId, Neighbours, StrictlySorted;
    if |values| > MAX_REFERENCES {
      return None;
    }
    var seen: set<Bytes>, out: seq<Reference> := {}, [];
    NothingRepeats();
    for i := 0 to |values|
      invariant out == values[..i]
      invariant forall x :: x in out ==> OfKind(x, kind) && IsHash(x.id) && IsHash(x.digest) && x.kind <= MAX_KIND
      invariant forall id :: id in seen <==> HasId(out, id)
      invariant DistinctBy(IdOf, out)
      invariant Neighbours(out)
    {
      var ref := values[i];
      assert values[..i + 1] == out + [ref] && ref in values;
      DistinctOneMore(IdOf, out, ref);
      HasIdOneMore(out, ref);
      DistinctPrefix(IdOf, values, i + 1);
      if ref.kind > MAX_KIND || !OfKind(ref, kind) || !IsHash(ref.id) || !IsHash(ref.digest) || ref.id in seen {
        return None;
      }
      if i > 0 {
        var prior := values[i - 1];
        if prior.kind > ref.kind || (prior.kind == ref.kind && !Less(prior.id, ref.id)) {
          DisorderShows(values, i);
          return None;
        }
        LessIrreflexive(ref.id);
        assert out[i - 1] == prior && ReferenceLess(prior, ref);
      }
      NeighboursOneMore(out, ref);
      seen, out := seen + {ref.id}, out + [ref];
    }
    assert values[..|values|] == values;
    InOrder(values);
    return Some(out);
  }

  ghost predicate Neighbours(values: seq<Reference>) {
    forall i :: 0 < i < |values| ==> ReferenceLess(values[i - 1], values[i])
  }

  lemma NeighboursOneMore(values: seq<Reference>, x: Reference)
    requires Neighbours(values)
    requires values != [] ==> ReferenceLess(values[|values| - 1], x)
    ensures Neighbours(values + [x])
  {
    hide ReferenceLess;
  }

  lemma DisorderShows(values: seq<Reference>, i: nat)
    requires 0 < i < |values| && DistinctBy(IdOf, values[..i + 1])
    requires values[i - 1].kind > values[i].kind || (values[i - 1].kind == values[i].kind && !Less(values[i - 1].id, values[i].id))
    ensures !StrictlySorted(ReferenceLess, values)
  {
    assert IdOf(values[..i + 1][i - 1]) != IdOf(values[..i + 1][i]);
    assert !ReferenceLess(values[i - 1], values[i]);
  }

  lemma {:induction false} InOrder(values: seq<Reference>)
    requires Neighbours(values)
    ensures StrictlySorted(ReferenceLess, values)
  {
    ReferencesAreOrdered();
    hide ReferenceLess;
    if values != [] {
      var init, last := values[..|values| - 1], values[|values| - 1];
      InOrder(init);
      forall i | 0 <= i < |init| ensures ReferenceLess(init[i], last) {
        assert i == |init| - 1 || ReferenceLess(init[i], init[|init| - 1]);
      }
    }
  }

  lemma SortingIsStrict(values: seq<Reference>)
    requires DistinctBy(IdOf, values)
    ensures StrictlySorted(ReferenceLess, Sort(ReferenceLess, values)) && DistinctBy(IdOf, Sort(ReferenceLess, values))
  {
    hide ReferenceLess, Sort;
    ReferencesAreOrdered();
    var sorted := Sort(ReferenceLess, values);
    SortSorted(ReferenceLess, values);
    DistinctIgnoresOrder(IdOf, values, sorted);
    forall i, j | 0 <= i < j < |sorted| ensures ReferenceLess(sorted[i], sorted[j]) {
      assert IdOf(sorted[i]) != IdOf(sorted[j]);
      assert !ReferenceLess(sorted[j], sorted[i]);
    }
  }

  lemma StrictIsSorted(values: seq<Reference>)
    requires StrictlySorted(ReferenceLess, values)
    ensures Sort(ReferenceLess, values) == values
  {
    hide ReferenceLess, Sort;
    ReferencesAreOrdered();
    forall i, j | 0 <= i < j < |values| ensures !ReferenceLess(values[j], values[i]) {
      assert ReferenceLess(values[i], values[j]);
    }
    SortedIsSort(ReferenceLess, values, values);
  }

  /** Writing and reading agree: what is written can be read back, and a list can be read exactly
      when writing it would leave it as it is. */
  lemma WritingIsReading(values: seq<Reference>, kind: Option<nat>)
    requires kind.Some? ==> kind.value <= MAX_KIND
    ensures Writable(values, kind) && (forall r :: r in values ==> r.kind <= MAX_KIND) ==>
              Canonical(Sort(ReferenceLess, values), kind)
    ensures Canonical(values, kind) <==>
              && Writable(values, kind)
              && (forall r :: r in values ==> r.kind <= MAX_KIND)
              && Sort(ReferenceLess, values) == values
  {
    hide ReferenceLess, IsHash, OfKind, Sort, DistinctBy, StrictlySorted;
    SameMembers(Sort(ReferenceLess, values), values);
    if DistinctBy(IdOf, values) {
      SortingIsStrict(values);
    }
    if StrictlySorted(ReferenceLess, values) {
      StrictIsSorted(values);
    }
  }

  /** The canonical lists of claims, as a check that needs no sorting. */
  predicate IsClaimList(values: seq<Reference>) {
    && |values| <= MAX_REFERENCES
    && (forall i :: 0 <= i < |values| ==> values[i].kind == 18 && IsHash(values[i].id) && IsHash(values[i].digest))
    && (forall i, j :: 0 <= i < j < |values| ==> Less(values[i].id, values[j].id))
  }

  lemma ClaimListsAreCanonical(values: seq<Reference>)
    ensures IsClaimList(values) <==> Canonical(values, Some(18))
  {
    hide IsHash, Less;
    if IsClaimList(values) {
      forall i, j | 0 <= i < j < |values|
        ensures IdOf(values[i]) != IdOf(values[j]) && ReferenceLess(values[i], values[j])
      {
        LessIrreflexive(values[i].id);
      }
    }
    if Canonical(values, Some(18)) {
      forall i, j | 0 <= i < j < |values| ensures Less(values[i].id, values[j].id) {
        assert IdOf(values[i]) != IdOf(values[j]) && ReferenceLess(values[i], values[j]);
        assert values[i] in values && values[j] in values;
      }
    }
  }
}

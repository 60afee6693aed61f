/** Numbers of a JSON document, and coordinates read from them. A number that is not a natural
    number is read as zero, because the callers drop the flag that says so. */
module Json {
  import opened Bytes
  import opened Domain

  /** The largest `float64` below 2^64. */
  const LARGEST: U64 := TWO_TO_64 - 2048

  /** What the model uses of `float64`: none lies between that one and 2^64. */
  type Double = x: real | !(LARGEST as real < x < TWO_TO_64 as real) witness 0.0

  /** A decoded value; `Other` stands for null and for everything that is not a number. */
  datatype Json = Number(x: Double) | Other

  /** The natural number a value is, as `uint64`. The conversion of 2^64 itself is left to the
      platform: it saturates, and then passes for exact, or it gives something else. */
  function Read(v: Json, saturates: bool): Option<U64> {
    match v
    case Other => None
    case Number(x) =>
      if x < 0.0 then None
      else if x < TWO_TO_64 as real then
        if x.Floor as real == x then Some(x.Floor) else None
      else if saturates && x == TWO_TO_64 as real then Some(MAX_U64)
      else None
  }

  /** The same when the flag is dropped. */
  function Reading(v: Json, saturates: bool): U64 {
    match Read(v, saturates)
    case Some(n) => n
    case None => 0
  }

  type Place = (Json, Json)

  /** Later by instant and then ordinal, as the readings compare. */
  predicate ReadsLater(e: Place, f: Place, saturates: bool) {
    var i, j := Reading(e.0, saturates), Reading(f.0, saturates);
    i > j || (i == j && Reading(e.1, saturates) > Reading(f.1, saturates))
  }

  /** Later as the numbers themselves compare. */
  predicate IsLater(e: Place, f: Place) {
    && e.0.Number? && f.0.Number?
    && (e.0.x > f.0.x || (e.0.x == f.0.x && e.1.Number? && f.1.Number? && e.1.x > f.1.x))
  }

  predicate IsRead(v: Json, saturates: bool) {
    Read(v, saturates).Some?
  }

  /** Readings of natural numbers compare as the numbers do. */
  lemma ReadingsCompare(v: Json, w: Json, saturates: bool)
    requires IsRead(v, saturates) && IsRead(w, saturates)
    ensures v.Number? && w.Number?
    ensures Reading(v, saturates) > Reading(w, saturates) <==> v.x > w.x
    ensures Reading(v, saturates) == Reading(w, saturates) <==> v.x == w.x
  {
  }

  /** Between places made of natural numbers the comparison is right. */
  lemma NaturalPlacesCompare(e: Place, f: Place, saturates: bool)
    requires IsRead(e.0, saturates) && IsRead(e.1, saturates) && IsRead(f.0, saturates) && IsRead(f.1, saturates)
    ensures ReadsLater(e, f, saturates) <==> IsLater(e, f)
  {
    ReadingsCompare(e.0, f.0, saturates);
    ReadingsCompare(e.1, f.1, saturates);
  }

  /** The ordinal nothing can be read later than. */
  predicate IsLastOrdinal(v: Json, saturates: bool) {
    Reading(v, saturates) == if saturates then MAX_U64 else LARGEST
  }

  /** What a place must be for nothing earlier to pass for later than it: an instant read as a
      positive number, and an ordinal that is read or below one. */
  predicate IsSafeLimit(f: Place, saturates: bool) {
    if Reading(f.0, saturates) > 0 then f.1.Number? && (f.1.x < 1.0 || IsRead(f.1, saturates))
    else f.0.Number? && f.0.x < 1.0 && IsLastOrdinal(f.1, saturates)
  }

  /** Whatever reads later than a place is later, exactly for the safe ones. At instant zero, or at
      one that is read as zero, a place of a negative instant passes. */
  lemma LimitIsSafeExactly(f: Place, saturates: bool)
    ensures (forall e: Place :: ReadsLater(e, f, saturates) ==> IsLater(e, f)) <==> IsSafeLimit(f, saturates)
  {
    if IsSafeLimit(f, saturates) {
      forall e: Place | ReadsLater(e, f, saturates) ensures IsLater(e, f) {
        LaterThanSafe(e, f, saturates);
      }
    } else {
      var e := Passing(f, saturates);
      PassingPasses(f, saturates);
    }
  }

  lemma LaterThanSafe(e: Place, f: Place, saturates: bool)
    requires IsSafeLimit(f, saturates) && ReadsLater(e, f, saturates)
    ensures IsLater(e, f)
  {
    ReadingIsBounded(e.1, saturates);
    assert IsRead(e.0, saturates);
    if IsRead(f.0, saturates) {
      ReadingsCompare(e.0, f.0, saturates);
    }
    if Reading(e.0, saturates) == Reading(f.0, saturates) {
      assert IsRead(e.1, saturates);
      if IsRead(f.1, saturates) {
        ReadingsCompare(e.1, f.1, saturates);
      }
    }
  }

  lemma ReadingIsBounded(v: Json, saturates: bool)
    ensures Reading(v, saturates) <= if saturates then MAX_U64 else LARGEST
  {
  }

  /** A place that reads later than an unsafe one without being later. */
  function Passing(f: Place, saturates: bool): Place {
    if Reading(f.0, saturates) > 0 then (f.0, Number(1.0))
    else if !f.0.Number? || f.0.x >= 1.0 then (Number(1.0), Number(0.0))
    else if saturates then (Other, Number(TWO_TO_64 as real)) else (Other, Number(LARGEST as real))
  }

  lemma PassingPasses(f: Place, saturates: bool)
    requires !IsSafeLimit(f, saturates)
    ensures ReadsLater(Passing(f, saturates), f, saturates) && !IsLater(Passing(f, saturates), f)
  {
    ReadingIsBounded(f.1, saturates);
  }

  /** What a place must be for nothing later to be missed: none of its numbers is negative. */
  predicate IsCompleteLimit(f: Place, saturates: bool) {
    (f.0.Number? ==> f.0.x >= 0.0) && (IsRead(f.0, saturates) && f.1.Number? ==> f.1.x >= 0.0)
  }

  /** Every place of natural numbers that is later also reads later, exactly for the complete ones. */
  lemma LimitIsCompleteExactly(f: Place, saturates: bool)
    ensures (forall e: Place :: IsRead(e.0, saturates) && IsRead(e.1, saturates) && IsLater(e, f) ==> ReadsLater(e, f, saturates))
       <==> IsCompleteLimit(f, saturates)
  {
    if IsCompleteLimit(f, saturates) {
      forall e: Place | IsRead(e.0, saturates) && IsRead(e.1, saturates) && IsLater(e, f) ensures ReadsLater(e, f, saturates) {
        if IsRead(f.0, saturates) {
          ReadingsCompare(e.0, f.0, saturates);
        }
        if IsRead(f.1, saturates) {
          ReadingsCompare(e.1, f.1, saturates);
        }
      }
    } else {
      var e: Place := if f.0.Number? && f.0.x < 0.0 then (Number(0.0), Number(0.0)) else (f.0, Number(0.0));
      assert IsRead(e.0, saturates) && IsRead(e.1, saturates) && IsLater(e, f) && !ReadsLater(e, f, saturates);
    }
  }

  function Small(instant: int, ordinal: int): Place
    requires instant < LARGEST && ordinal < LARGEST
  {
    (Number(instant as real), Number(ordinal as real))
  }

  /** The cases as inputs: a negative instant passes, after either of two places, and a later
      instant is missed. */
  lemma NegativeInstantsAreMisread(saturates: bool)
    ensures ReadsLater(Small(-7, 5), Small(0, 3), saturates) && !IsLater(Small(-7, 5), Small(0, 3))
    ensures ReadsLater(Small(-10, 4), Small(-5, 3), saturates) && !IsLater(Small(-10, 4), Small(-5, 3))
    ensures !ReadsLater(Small(-5, 0), Small(-10, 3), saturates) && IsLater(Small(-5, 0), Small(-10, 3))
  {
  }
}

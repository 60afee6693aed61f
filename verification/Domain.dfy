/** Causal value objects shared by every part of the kernel. */
module Domain {
  import opened Bytes

  datatype Result<+T, +E> = Ok(value: T) | Err(error: E)

  /** A value that may be missing; usable with `:-`. */
  datatype Option<+T> = None | Some(value: T) {
    predicate IsFailure() {
      None?
    }

    function PropagateFailure<U>(): Option<U>
      requires None?
    {
      None
    }

    function Extract(): T
      requires Some?
    {
      value
    }
  }

  /** A simulation instant and a cycle ordinal at that instant. */
  datatype Coordinate = Coordinate(instant: I64, ordinal: U64)

  predicate Before(a: Coordinate, b: Coordinate) {
    a.instant < b.instant || (a.instant == b.instant && a.ordinal < b.ordinal)
  }

  /** The three-way comparison decides a strict total order on coordinates. */
  function Compare(a: Coordinate, b: Coordinate): (r: int)
    ensures r < 0 <==> Before(a, b)
    ensures r == 0 <==> a == b
    ensures r > 0 <==> Before(b, a)
  {
    if a.instant < b.instant then -1
    else if a.instant > b.instant then 1
    else if a.ordinal < b.ordinal then -1
    else if a.ordinal > b.ordinal then 1
    else 0
  }

  predicate IsAlphanumeric(b: Byte) {
    0x61 <= b <= 0x7a || 0x30 <= b <= 0x39
  }

  predicate IsLetter(b: Byte) {
    0x61 <= b <= 0x7a
  }

  predicate IsSeparator(b: Byte) {
    b in {0x2e, 0x5f, 0x3a, 0x2f, 0x2d}
  }

  /** A separator stands before a letter or a digit. */
  predicate SpacedAt(s: Bytes, i: int)
    requires 0 <= i < |s|
  {
    IsAlphanumeric(s[i]) || (IsSeparator(s[i]) && i + 1 < |s| && IsAlphanumeric(s[i + 1]))
  }

  predicate Spaced(s: Bytes) {
    forall i :: 0 <= i < |s| ==> SpacedAt(s, i)
  }

  /** Lower-case alphanumeric words joined by single separators, starting with a letter. */
  predicate MachineId(name: Bytes) {
    1 <= |name| <= 128 && IsLetter(name[0]) && Spaced(name)
  }
}

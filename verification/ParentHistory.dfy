/** The framing of a parent-history reference: an eight-byte magic, a version byte, and
    fields behind 16-bit lengths with a fixed 64-bit schema version among them. */
module ParentHistory {
  import opened Bytes
  import opened Domain
  import BigEndian

  datatype Reference = Reference(
    policyId: Bytes,
    policyHash: Bytes,
    domainTag: Bytes,
    schemaId: Bytes,
    schemaVersion: U64,
    algorithm: Bytes,
    checkpointHash: Bytes)

  const MAGIC: Bytes := [0x43, 0x53, 0x46, 0x48, 0x52, 0x45, 0x46, 0]
  const HASH_LENGTH := 32

  /** Every field fits its length prefix and both hashes are whole. */
  ghost predicate Framed(r: Reference) {
    && |r.policyId| < TWO_TO_16
    && |r.policyHash| == HASH_LENGTH
    && |r.domainTag| < TWO_TO_16
    && |r.schemaId| < TWO_TO_16
    && |r.algorithm| < TWO_TO_16
    && |r.checkpointHash| == HASH_LENGTH
  }

  function Field(value: Bytes): Bytes {
    BigEndian.Write(|value|, 2) + value
  }

  /** The reference written out, field by field. */
  function Serialize(r: Reference): Bytes {
    MAGIC + ([1] + SerializeFields(r))
  }

  function SerializeFields(r: Reference): Bytes {
    Field(r.policyId) + (Field(r.policyHash) + (Field(r.domainTag) + (Field(r.schemaId) + SerializeTail(r))))
  }

  function SerializeTail(r: Reference): Bytes {
    BigEndian.Write(r.schemaVersion, 8) + (Field(r.algorithm) + (Field(r.checkpointHash) + []))
  }

  // ----- what the parser computes -----

  /** A 16-bit length, high byte first. */
  function Length(high: Byte, low: Byte): nat {
    var h: nat := high;
    h * 256 + low
  }

  /** The field at the front of `s`, whose length must be `expected` when that is given. */
  function TakeField(s: Bytes, expected: Option<nat>): (r: Option<(Bytes, Bytes)>) {
    if |s| < 2 then None
    else
      var length := Length(s[0], s[1]);
      if (expected.Some? && length != expected.value) || |s| < 2 + length then None
      else Some((s[2..2 + length], s[2 + length..]))
  }

  function TakeReference(s: Bytes): Option<Reference> {
    var (policyId, s1) :- TakeField(s, None);
    var (policyHash, s2) :- TakeField(s1, Some(HASH_LENGTH));
    var (domainTag, s3) :- TakeField(s2, None);
    var (schemaId, s4) :- TakeField(s3, None);
    var (schemaVersion, algorithm, checkpointHash) :- TakeTail(s4);
    Some(Reference(policyId, policyHash, domainTag, schemaId, schemaVersion, algorithm, checkpointHash))
  }

  function TakeTail(s: Bytes): Option<(U64, Bytes, Bytes)> {
    if |s| < 8 then None
    else
      BigEndian.ReadBound(s[..8]);
      BigEndian.Widths();
      var (algorithm, s1) :- TakeField(s[8..], None);
      var (checkpointHash, s2) :- TakeField(s1, Some(HASH_LENGTH));
      if s2 != [] then None else Some((BigEndian.Read(s[..8]), algorithm, checkpointHash))
  }

  function Parsed(encoded: Bytes): Option<Reference> {
    if |encoded| < 10 || encoded[..8] != MAGIC || encoded[8] != 1 then None else TakeReference(encoded[9..])
  }

  // ----- the parser -----

  /** `next` is the offset behind the field. */
  method ReadBytes(encoded: Bytes, offset: nat, expected: Option<nat>) returns (value: Option<Bytes>, next: nat)
    requires offset <= |encoded|
    ensures next <= |encoded|
    ensures match TakeField(encoded[offset..], expected)
            case None => value == None
            case Some((field, rest)) => value == Some(field) && rest == encoded[next..]
  {
    ghost var s := encoded[offset..];
    if |encoded| < offset + 2 {
      return None, offset;
    }
    var length := Length(encoded[offset], encoded[offset + 1]);
    next := offset + 2;
    if (expected.Some? && length != expected.value) || |encoded| < next + length {
      return None, next;
    }
    value := Some(encoded[next..next + length]);
    assert s[2..2 + length] == value.value && s[2 + length..] == encoded[next + length..];
    next := next + length;
  }

  method Parse(encoded: Bytes) returns (result: Option<Reference>)
    ensures result == Parsed(encoded)
  {
    hide TakeField;
    if |encoded| < 10 || encoded[..8] != MAGIC {
      return None;
    }
    var offset := 8;
    if |encoded| <= offset || encoded[offset] != 1 {
      return None;
    }
    offset := offset + 1;
    var policyId, policyHash, domainTag, schemaId, algorithm, checkpoint;
    policyId, offset := ReadBytes(encoded, offset, None);
    if policyId == None {
      return None;
    }
    policyHash, offset := ReadBytes(encoded, offset, Some(HASH_LENGTH));
    if policyHash == None {
      return None;
    }
    domainTag, offset := ReadBytes(encoded, offset, None);
    if domainTag == None {
      return None;
    }
    schemaId, offset := ReadBytes(encoded, offset, None);
    if schemaId == None || |encoded| < offset + 8 {
      return None;
    }
    ghost var s := encoded[offset..];
    BigEndian.ReadBound(s[..8]);
    BigEndian.Widths();
    var schemaVersion: nat := 0;
    ghost var start := offset;
    for i := 0 to 8
      invariant offset == start + i
      invariant schemaVersion == BigEndian.Read(s[..i])
    {
      assert s[..i + 1][..i] == s[..i];
      schemaVersion := schemaVersion * 256 + encoded[offset];
      offset := offset + 1;
    }
    assert s[8..] == encoded[offset..];
    algorithm, offset := ReadBytes(encoded, offset, None);
    if algorithm == None {
      return None;
    }
    checkpoint, offset := ReadBytes(encoded, offset, Some(HASH_LENGTH));
    if checkpoint == None || offset != |encoded| {
      return None;
    }
    return Some(Reference(policyId.value, policyHash.value, domainTag.value, schemaId.value,
                          schemaVersion, algorithm.value, checkpoint.value));
  }

  // ----- parsing inverts serialising -----

  lemma ReadTwo(s: Bytes)
    requires |s| == 2
    ensures BigEndian.Read(s) == Length(s[0], s[1])
  {
    assert s[..1] == [s[0]];
    assert BigEndian.Read([s[0]]) == BigEndian.Read([]) * 256 + s[0];
  }

  lemma FieldTaken(v: Bytes, rest: Bytes, expected: Option<nat>)
    requires |v| < TWO_TO_16 && (expected.Some? ==> |v| == expected.value)
    ensures TakeField(Field(v) + rest, expected) == Some((v, rest))
  {
    var s, prefix := Field(v) + rest, BigEndian.Write(|v|, 2);
    BigEndian.Widths();
    BigEndian.ReadWrite(|v|, 2);
    ReadTwo(prefix);
    assert s == prefix + (v + rest);
    assert s[2..2 + |v|] == v && s[2 + |v|..] == rest;
  }

  lemma PrefixWritten(prefix: Bytes)
    requires |prefix| == 2
    ensures BigEndian.Write(Length(prefix[0], prefix[1]), 2) == prefix
  {
    hide BigEndian.Read, BigEndian.Write;
    ReadTwo(prefix);
    BigEndian.WriteRead(prefix);
  }

  lemma TakenField(s: Bytes, expected: Option<nat>)
    requires TakeField(s, expected).Some?
    ensures var field := TakeField(s, expected).value;
            && |field.0| < TWO_TO_16 && (expected.Some? ==> |field.0| == expected.value)
            && s == Field(field.0) + field.1
  {
    var v, rest, prefix := TakeField(s, expected).value.0, TakeField(s, expected).value.1, s[..2];
    assert s == prefix + (v + rest) && |v| == Length(prefix[0], prefix[1]);
    PrefixWritten(prefix);
    hide BigEndian.Write, Length;
    assert Field(v) == prefix + v;
    assert s == (prefix + v) + rest;
  }

  lemma TailIsExact(r: Reference, s: Bytes)
    requires Framed(r)
    ensures TakeTail(s) == Some((r.schemaVersion, r.algorithm, r.checkpointHash)) <==> s == SerializeTail(r)
  {
    if s == SerializeTail(r) {
      var version := BigEndian.Write(r.schemaVersion, 8);
      BigEndian.Widths();
      BigEndian.ReadWrite(r.schemaVersion, 8);
      assert s[..8] == version && s[8..] == Field(r.algorithm) + (Field(r.checkpointHash) + []);
      FieldTaken(r.algorithm, Field(r.checkpointHash) + [], None);
      FieldTaken(r.checkpointHash, [], Some(HASH_LENGTH));
    }
    if TakeTail(s) == Some((r.schemaVersion, r.algorithm, r.checkpointHash)) {
      BigEndian.WriteRead(s[..8]);
      TakenField(s[8..], None);
      TakenField(TakeField(s[8..], None).value.1, Some(HASH_LENGTH));
      assert s == s[..8] + s[8..];
    }
  }

  lemma FieldsAreExact(r: Reference, s: Bytes)
    requires Framed(r)
    ensures TakeReference(s) == Some(r) <==> s == SerializeFields(r)
  {
    hide TakeField, TakeTail, SerializeTail, Field;
    if s == SerializeFields(r) {
      var s4 := SerializeTail(r);
      var s3 := Field(r.schemaId) + s4;
      var s2 := Field(r.domainTag) + s3;
      var s1 := Field(r.policyHash) + s2;
      FieldTaken(r.policyId, s1, None);
      FieldTaken(r.policyHash, s2, Some(HASH_LENGTH));
      FieldTaken(r.domainTag, s3, None);
      FieldTaken(r.schemaId, s4, None);
      TailIsExact(r, s4);
    }
    if TakeReference(s) == Some(r) {
      TakenField(s, None);
      var s1 := TakeField(s, None).value.1;
      TakenField(s1, Some(HASH_LENGTH));
      var s2 := TakeField(s1, Some(HASH_LENGTH)).value.1;
      TakenField(s2, None);
      var s3 := TakeField(s2, None).value.1;
      TakenField(s3, None);
      var s4 := TakeField(s3, None).value.1;
      assert TakeTail(s4).value == (r.schemaVersion, r.algorithm, r.checkpointHash);
      TailIsExact(r, s4);
    }
  }

  lemma ParsedIsFramed(encoded: Bytes)
    requires Parsed(encoded).Some?
    ensures Framed(Parsed(encoded).value)
  {
    var s := encoded[9..];
    TakenField(s, None);
    var s1 := TakeField(s, None).value.1;
    TakenField(s1, Some(HASH_LENGTH));
    var s2 := TakeField(s1, Some(HASH_LENGTH)).value.1;
    TakenField(s2, None);
    var s3 := TakeField(s2, None).value.1;
    TakenField(s3, None);
    var s4 := TakeField(s3, None).value.1;
    TakenField(s4[8..], None);
    TakenField(TakeField(s4[8..], None).value.1, Some(HASH_LENGTH));
  }

  lemma FieldsAreNotEmpty(r: Reference)
    ensures |SerializeFields(r)| >= 2
  {
  }

  /** A byte string parses to `r` exactly when it is `r` written out: nothing trailing,
      nothing missing, and no second spelling. */
  lemma ParseIsExact(encoded: Bytes, r: Reference)
    ensures Parsed(encoded) == Some(r) <==> Framed(r) && encoded == Serialize(r)
  {
    hide TakeReference, SerializeFields, Framed;
    if Parsed(encoded) == Some(r) {
      ParsedIsFramed(encoded);
      FieldsAreExact(r, encoded[9..]);
      assert encoded == encoded[..8] + ([encoded[8]] + encoded[9..]);
    }
    if Framed(r) && encoded == Serialize(r) {
      FieldsAreNotEmpty(r);
      assert encoded[..8] == MAGIC && encoded[8] == 1 && encoded[9..] == SerializeFields(r);
      FieldsAreExact(r, encoded[9..]);
    }
  }
}

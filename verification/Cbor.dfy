/** Core deterministic encoding (section 4.2.1 of RFC 8949) and the reader that accepts
    exactly its outputs.

    Whether a text is valid, normalised and assigned, and whether a float is finite and in
    its shortest form, are left to a `Profile`; everything else is spelled out. */
module Cbor {
  import opened Bytes
  import opened Domain
  import BigEndian

  datatype Code =
    | IndefiniteLength
    | SimpleValueForbidden
    | NonPreferredInteger
    | DuplicateMapKey
    | MapKeyOrder
    | SemanticTagForbidden
    | TrailingBytes
    | InvalidUnicodeScalar
    | InvalidUtf8
    | TextNotCanonical
    | UnicodeUnassigned
    | NonFiniteFloat
    | NegativeZero
    | NonPreferredFloat

  /** The verdict on a text's content bytes and on a float's full encoding. */
  datatype Profile = Profile(text: Bytes -> Option<Code>, float: Bytes -> Option<Code>)

  datatype Value =
    | UInt(n: nat)
    | Negative(n: nat) // stands for -1 - n
    | ByteString(raw: Bytes)
    | Text(raw: Bytes)
    | Array(items: Items)
    | Map(entries: Entries)
    | Bool(b: bool)
    | Null
    | Float(encoded: Bytes)

  datatype Items = NoItems | Items(head: Value, tail: Items) {
    function Count(): nat {
      if NoItems? then 0 else 1 + tail.Count()
    }
  }

  datatype Entries = NoEntries | Entries(key: Value, value: Value, tail: Entries) {
    function Count(): nat {
      if NoEntries? then 0 else 1 + tail.Count()
    }
  }

  // ----- encoding -----

  /** The low five bits of the shortest head for `n`. */
  function Additional(n: nat): nat {
    if n < 24 then n
    else if n <= 0xff then 24
    else if n <= 0xffff then 25
    else if n <= 0xffff_ffff then 26
    else 27
  }

  /** How many argument bytes follow an initial byte with these low five bits. */
  function Width(additional: nat): nat {
    if additional < 24 then 0
    else if additional == 24 then 1
    else if additional == 25 then 2
    else if additional == 26 then 4
    else 8
  }

  /** The shortest head carrying `n`; callers keep `n` below 2^64. */
  function Head(major: nat, n: nat): (r: Bytes)
    requires major < 8
    ensures |r| == 1 + Width(Additional(n))
  {
    [major * 32 + Additional(n)] + BigEndian.Write(n, Width(Additional(n)))
  }

  function Encode(v: Value): Bytes {
    match v
    case UInt(n) => Head(0, n)
    case Negative(n) => Head(1, n)
    case ByteString(raw) => Head(2, |raw|) + raw
    case Text(raw) => Head(3, |raw|) + raw
    case Array(items) => Head(4, items.Count()) + EncodeItems(items)
    case Map(entries) => Head(5, entries.Count()) + EncodeEntries(entries)
    case Bool(b) => [if b then 0xf5 else 0xf4]
    case Null => [0xf6]
    case Float(encoded) => encoded
  }

  function EncodeItems(items: Items): Bytes {
    match items
    case NoItems => []
    case Items(head, tail) => Encode(head) + EncodeItems(tail)
  }

  function EncodeEntries(entries: Entries): Bytes {
    match entries
    case NoEntries => []
    case Entries(key, value, tail) => Encode(key) + Encode(value) + EncodeEntries(tail)
  }

  /** A value that has a deterministic encoding: arguments fit in 64 bits, content passes
      the profile, and map keys ascend strictly in the order of their encodings. */
  ghost predicate Deterministic(p: Profile, v: Value) {
    match v
    case UInt(n) => n < TWO_TO_64
    case Negative(n) => n < TWO_TO_64
    case ByteString(raw) => |raw| < TWO_TO_64
    case Text(raw) => |raw| < TWO_TO_64 && p.text(raw) == None
    case Array(items) => items.Count() < TWO_TO_64 && DeterministicItems(p, items)
    case Map(entries) => entries.Count() < TWO_TO_64 && DeterministicEntries(p, entries, None)
    case Bool(_) => true
    case Null => true
    case Float(encoded) => DeterministicFloat(p, encoded)
  }

  ghost predicate DeterministicFloat(p: Profile, encoded: Bytes) {
    && encoded != []
    && 0xf9 <= encoded[0] <= 0xfb
    && |encoded| == 1 + Width(encoded[0] - 0xe0)
    && p.float(encoded) == None
  }

  ghost predicate DeterministicItems(p: Profile, items: Items) {
    match items
    case NoItems => true
    case Items(head, tail) => Deterministic(p, head) && DeterministicItems(p, tail)
  }

  /** Every key comes after the one before it, and the first one after `previous`. */
  ghost predicate DeterministicEntries(p: Profile, entries: Entries, previous: Option<Bytes>) {
    match entries
    case NoEntries => true
    case Entries(key, value, tail) =>
      && Deterministic(p, key)
      && Deterministic(p, value)
      && (previous.Some? ==> Less(previous.value, Encode(key)))
      && DeterministicEntries(p, tail, Some(Encode(key)))
  }

  // ----- reading -----

  datatype Argument = Argument(n: U64, used: nat) | Truncated | NotShortest

  /** The head argument selected by the low five bits, which are below 28 here. */
  function ReadArgument(additional: nat, s: Bytes): (r: Argument)
    requires additional < 28
    ensures r.Argument? ==> r.used == Width(additional) <= |s|
  {
    var width := Width(additional);
    if width == 0 then Argument(additional, 0)
    else if |s| < width then Truncated
    else
      BigEndian.ReadBound(s[..width]);
      BigEndian.Widths();
      var n := BigEndian.Read(s[..width]);
      if Additional(n) < additional then NotShortest else Argument(n, width)
  }

  datatype Reading<+T> = Accepted(value: T, used: nat) | Violation(code: Code) | Unclassified

  /** Reads one item from the front of `s`, or says what is wrong with it first. */
  function Read(p: Profile, s: Bytes): (r: Reading<Value>)
    ensures r.Accepted? ==> 1 <= r.used <= |s|
    decreases |s|, 2, 0
  {
    if s == [] then Unclassified
    else
      var major, additional := s[0] / 32, s[0] % 32;
      if additional == 31 then Violation(IndefiniteLength)
      else if major == 7 then ReadSimple(p, s, additional)
      else if additional >= 28 then Unclassified
      else
        match ReadArgument(additional, s[1..])
        case Truncated => Unclassified
        case NotShortest => Violation(NonPreferredInteger)
        case Argument(n, used) => ReadContent(p, s, major, n, 1 + used)
  }

  function ReadSimple(p: Profile, s: Bytes, additional: nat): (r: Reading<Value>)
    requires s != []
    ensures r.Accepted? ==> 1 <= r.used <= |s|
  {
    if additional == 20 then Accepted(Bool(false), 1)
    else if additional == 21 then Accepted(Bool(true), 1)
    else if additional == 22 then Accepted(Null, 1)
    else if additional == 23 || additional == 24 then Violation(SimpleValueForbidden)
    else if 25 <= additional <= 27 then
      var end := 1 + Width(additional);
      if |s| < end then Unclassified
      else match p.float(s[..end]) case Some(code) => Violation(code) case None => Accepted(Float(s[..end]), end)
    else Unclassified
  }

  /** `head` bytes of `s` are the initial byte and its argument `n`. */
  function ReadContent(p: Profile, s: Bytes, major: nat, n: nat, head: nat): (r: Reading<Value>)
    requires 1 <= head <= |s|
    ensures r.Accepted? ==> head <= r.used <= |s|
    decreases |s|, 1, 0
  {
    if major == 0 then Accepted(UInt(n), head)
    else if major == 1 then Accepted(Negative(n), head)
    else if major == 2 then
      if n > |s| - head then Unclassified else Accepted(ByteString(s[head..head + n]), head + n)
    else if major == 3 then
      if n > |s| - head then Unclassified
      else
        match p.text(s[head..head + n])
        case Some(code) => Violation(code)
        case None => Accepted(Text(s[head..head + n]), head + n)
    else if major == 4 then ReadArray(p, s, n, head)
    else if major == 5 then ReadMap(p, s, n, head)
    else if major == 6 then Violation(SemanticTagForbidden)
    else Unclassified
  }

  function ReadArray(p: Profile, s: Bytes, n: nat, head: nat): (r: Reading<Value>)
    requires 1 <= head <= |s|
    ensures r.Accepted? ==> head <= r.used <= |s|
    decreases |s|, 0, 0
  {
    if n > |s| - head then Unclassified
    else
      match ReadItems(p, s[head..], n)
      case Accepted(items, used) => Accepted(Array(items), head + used)
      case Violation(code) => Violation(code)
      case Unclassified => Unclassified
  }

  function ReadMap(p: Profile, s: Bytes, n: nat, head: nat): (r: Reading<Value>)
    requires 1 <= head <= |s|
    ensures r.Accepted? ==> head <= r.used <= |s|
    decreases |s|, 0, 0
  {
    if n > (|s| - head) / 2 then Unclassified
    else
      match ReadEntries(p, s[head..], n, None)
      case Accepted(entries, used) => Accepted(Map(entries), head + used)
      case Violation(code) => Violation(code)
      case Unclassified => Unclassified
  }

  function ReadItems(p: Profile, s: Bytes, n: nat): (r: Reading<Items>)
    ensures r.Accepted? ==> n <= r.used <= |s| && r.value.Count() == n
    decreases |s|, 3, n
  {
    if n == 0 then Accepted(NoItems, 0)
    else
      match Read(p, s)
      case Violation(code) => Violation(code)
      case Unclassified => Unclassified
      case Accepted(v, used) =>
        match ReadItems(p, s[used..], n - 1)
        case Violation(code) => Violation(code)
        case Unclassified => Unclassified
        case Accepted(rest, more) => Accepted(Items(v, rest), used + more)
  }

  datatype Pair = Pair(key: Value, value: Value, raw: Bytes)

  /** Reads a key, compares its raw bytes with the previous key's, then reads the value. */
  function ReadPair(p: Profile, s: Bytes, previous: Option<Bytes>): (r: Reading<Pair>)
    ensures r.Accepted? ==> 2 <= r.used <= |s|
    decreases |s|, 3, 0
  {
    match Read(p, s)
    case Violation(code) => Violation(code)
    case Unclassified => Unclassified
    case Accepted(k, keyUsed) =>
      var raw := s[..keyUsed];
      if previous == Some(raw) then Violation(DuplicateMapKey)
      else if previous.Some? && !Less(previous.value, raw) then Violation(MapKeyOrder)
      else
        match Read(p, s[keyUsed..])
        case Violation(code) => Violation(code)
        case Unclassified => Unclassified
        case Accepted(v, used) => Accepted(Pair(k, v, raw), keyUsed + used)
  }

  function ReadEntries(p: Profile, s: Bytes, n: nat, previous: Option<Bytes>): (r: Reading<Entries>)
    ensures r.Accepted? ==> 2 * n <= r.used <= |s| && r.value.Count() == n
    decreases |s|, 4, n
  {
    if n == 0 then Accepted(NoEntries, 0)
    else
      match ReadPair(p, s, previous)
      case Violation(code) => Violation(code)
      case Unclassified => Unclassified
      case Accepted(pair, used) =>
        match ReadEntries(p, s[used..], n - 1, Some(pair.raw))
        case Violation(code) => Violation(code)
        case Unclassified => Unclassified
        case Accepted(rest, more) => Accepted(Entries(pair.key, pair.value, rest), used + more)
  }

  // ----- the reader accepts every deterministic encoding -----

  lemma AdditionalBound(n: nat)
    requires n < TWO_TO_64
    ensures Additional(n) < 28
    ensures Width(Additional(n)) > 0 ==> n < BigEndian.Pow256(Width(Additional(n)))
  {
    BigEndian.Widths();
  }

  lemma ReadShortestArgument(n: nat, rest: Bytes)
    requires n < TWO_TO_64
    ensures ReadArgument(Additional(n), BigEndian.Write(n, Width(Additional(n))) + rest)
         == Argument(n, Width(Additional(n)))
  {
    var width := Width(Additional(n));
    var argument := BigEndian.Write(n, width);
    AdditionalBound(n);
    assert (argument + rest)[..width] == argument;
    if width > 0 {
      BigEndian.ReadWrite(n, width);
    }
  }

  lemma ReadPastHead(p: Profile, major: nat, n: nat, rest: Bytes)
    requires major < 7 && n < TWO_TO_64
    ensures var h := Head(major, n);
            && Read(p, h + rest) == ReadContent(p, h + rest, major, n, |h|)
            && (h + rest)[|h|..] == rest
  {
    var argument := BigEndian.Write(n, Width(Additional(n)));
    var s := Head(major, n) + rest;
    AdditionalBound(n);
    assert s[0] / 32 == major && s[0] % 32 == Additional(n);
    assert ReadArgument(s[0] % 32, s[1..]) == Argument(n, |argument|) by {
      assert s[1..] == argument + rest;
      ReadShortestArgument(n, rest);
    }
  }

  lemma ReadEncodeString(p: Profile, v: Value, rest: Bytes)
    requires v.ByteString? || v.Text?
    requires Deterministic(p, v)
    ensures Read(p, Encode(v) + rest) == Accepted(v, |Encode(v)|)
  {
    var major, raw := if v.ByteString? then 2 else 3, v.raw;
    var h := Head(major, |raw|);
    ReadPastHead(p, major, |raw|, raw + rest);
    assert Encode(v) + rest == h + (raw + rest);
    assert (h + (raw + rest))[|h|..|h| + |raw|] == raw;
  }

  lemma ReadEncodeLeaf(p: Profile, v: Value, rest: Bytes)
    requires v.UInt? || v.Negative? || v.Bool? || v.Null? || v.Float?
    requires Deterministic(p, v)
    ensures Read(p, Encode(v) + rest) == Accepted(v, |Encode(v)|)
  {
    match v
    case UInt(n) => ReadPastHead(p, 0, n, rest);
    case Negative(n) => ReadPastHead(p, 1, n, rest);
    case Float(encoded) => assert (encoded + rest)[..|encoded|] == encoded;
    case Bool(_) =>
    case Null =>
  }

  lemma {:induction false} ReadEncode(p: Profile, v: Value, rest: Bytes)
    requires Deterministic(p, v)
    ensures Read(p, Encode(v) + rest) == Accepted(v, |Encode(v)|)
    decreases v, 1
  {
    if v.Array? {
      ReadEncodeArray(p, v, rest);
    } else if v.Map? {
      ReadEncodeMap(p, v, rest);
    } else if v.ByteString? || v.Text? {
      ReadEncodeString(p, v, rest);
    } else {
      ReadEncodeLeaf(p, v, rest);
    }
  }

  lemma {:induction false} ReadEncodeArray(p: Profile, v: Value, rest: Bytes)
    requires v.Array? && Deterministic(p, v)
    ensures Read(p, Encode(v) + rest) == Accepted(v, |Encode(v)|)
    decreases v, 0
  {
    var n, body := v.items.Count(), EncodeItems(v.items) + rest;
    ReadEncodeItems(p, v.items, rest);
    ReadPastHead(p, 4, n, body);
    assert Encode(v) + rest == Head(4, n) + body;
  }

  lemma {:induction false} ReadEncodeMap(p: Profile, v: Value, rest: Bytes)
    requires v.Map? && Deterministic(p, v)
    ensures Read(p, Encode(v) + rest) == Accepted(v, |Encode(v)|)
    decreases v, 0
  {
    var n, body := v.entries.Count(), EncodeEntries(v.entries) + rest;
    ReadEncodeEntries(p, v.entries, None, rest);
    ReadPastHead(p, 5, n, body);
    assert Encode(v) + rest == Head(5, n) + body;
  }

  lemma {:induction false} ReadEncodeItems(p: Profile, items: Items, rest: Bytes)
    requires DeterministicItems(p, items)
    ensures ReadItems(p, EncodeItems(items) + rest, items.Count()) == Accepted(items, |EncodeItems(items)|)
    decreases items
  {
    if items.Items? {
      var code, after := Encode(items.head), EncodeItems(items.tail) + rest;
      assert EncodeItems(items) + rest == code + after;
      ReadEncode(p, items.head, after);
      ReadEncodeItems(p, items.tail, rest);
      assert (code + after)[|code|..] == after;
    }
  }

  lemma {:induction false} ReadEncodeEntries(p: Profile, entries: Entries, previous: Option<Bytes>, rest: Bytes)
    requires DeterministicEntries(p, entries, previous)
    ensures ReadEntries(p, EncodeEntries(entries) + rest, entries.Count(), previous)
         == Accepted(entries, |EncodeEntries(entries)|)
    decreases entries
  {
    if entries.Entries? {
      var after := EncodeEntries(entries.tail) + rest;
      EncodeEntriesThen(entries, rest);
      ReadEncode(p, entries.key, Encode(entries.value) + after);
      ReadEncode(p, entries.value, after);
      ReadEncodeEntries(p, entries.tail, Some(Encode(entries.key)), rest);
      EntriesRead(p, entries, previous, after, |EncodeEntries(entries.tail)|);
    }
  }

  lemma EncodeEntriesThen(entries: Entries, rest: Bytes)
    requires entries.Entries?
    ensures EncodeEntries(entries) + rest
         == Encode(entries.key) + (Encode(entries.value) + (EncodeEntries(entries.tail) + rest))
    ensures |EncodeEntries(entries)|
         == |Encode(entries.key)| + |Encode(entries.value)| + |EncodeEntries(entries.tail)|
  {
  }

  lemma ReadEntriesStep(p: Profile, s: Bytes, n: nat, previous: Option<Bytes>, after: Bytes)
    requires n > 0 && ReadPair(p, s, previous).Accepted?
    requires s[ReadPair(p, s, previous).used..] == after
    requires ReadEntries(p, after, n - 1, Some(ReadPair(p, s, previous).value.raw)).Accepted?
    ensures var first := ReadPair(p, s, previous);
            var rest := ReadEntries(p, after, n - 1, Some(first.value.raw));
            && ReadEntries(p, s, n, previous).Accepted?
            && ReadEntries(p, s, n, previous).value == Entries(first.value.key, first.value.value, rest.value)
            && ReadEntries(p, s, n, previous).used == first.used + rest.used
  {
  }

  lemma PairReads(p: Profile, key: Value, value: Value, previous: Option<Bytes>, after: Bytes)
    requires var s := Encode(key) + (Encode(value) + after);
             && Read(p, s) == Accepted(key, |Encode(key)|)
             && Read(p, Encode(value) + after) == Accepted(value, |Encode(value)|)
    requires previous.Some? ==> Less(previous.value, Encode(key))
    ensures var s, used := Encode(key) + (Encode(value) + after), |Encode(key)| + |Encode(value)|;
            && ReadPair(p, s, previous) == Accepted(Pair(key, value, Encode(key)), used)
            && s[used..] == after
  {
    var k, s := Encode(key), Encode(key) + (Encode(value) + after);
    assert s[..|k|] == k && s[|k|..] == Encode(value) + after;
    LessIrreflexive(k);
  }

  lemma EntriesRead(p: Profile, entries: Entries, previous: Option<Bytes>, after: Bytes, more: nat)
    requires entries.Entries? && (previous.Some? ==> Less(previous.value, Encode(entries.key)))
    requires var s := Encode(entries.key) + (Encode(entries.value) + after);
             && Read(p, s) == Accepted(entries.key, |Encode(entries.key)|)
             && Read(p, Encode(entries.value) + after) == Accepted(entries.value, |Encode(entries.value)|)
    requires ReadEntries(p, after, entries.tail.Count(), Some(Encode(entries.key))) == Accepted(entries.tail, more)
    ensures var s := Encode(entries.key) + (Encode(entries.value) + after);
            ReadEntries(p, s, entries.Count(), previous)
            == Accepted(entries, |Encode(entries.key)| + |Encode(entries.value)| + more)
  {
    hide Read, ReadEntries, ReadPair, Encode, Less;
    var s := Encode(entries.key) + (Encode(entries.value) + after);
    PairReads(p, entries.key, entries.value, previous, after);
    ReadEntriesStep(p, s, entries.Count(), previous, after);
  }

  // ----- and nothing else -----

  lemma HeadRead(s: Bytes)
    requires s != [] && s[0] % 32 < 28 && s[0] / 32 < 7
    requires ReadArgument(s[0] % 32, s[1..]).Argument?
    ensures var a := ReadArgument(s[0] % 32, s[1..]);
            Head(s[0] / 32, a.n) == s[..1 + a.used]
  {
    var additional := s[0] % 32;
    var a := ReadArgument(additional, s[1..]);
    var argument := s[1..][..a.used];
    assert s[..1 + a.used] == [s[0]] + argument;
    BigEndian.Widths();
    BigEndian.ReadBound(argument);
    BigEndian.WriteRead(argument);
    assert Additional(a.n) == additional;
  }

  lemma {:induction false} EncodeRead(p: Profile, s: Bytes)
    requires Read(p, s).Accepted?
    ensures Deterministic(p, Read(p, s).value)
    ensures Encode(Read(p, s).value) == s[..Read(p, s).used]
    decreases |s|, 2, 0
  {
    var major, additional := s[0] / 32, s[0] % 32;
    if major == 7 {
      assert s[..1] == [s[0]];
    } else {
      var a := ReadArgument(additional, s[1..]);
      HeadRead(s);
      EncodeReadContent(p, s, major, a.n, 1 + a.used);
    }
  }

  lemma {:induction false} EncodeReadContent(p: Profile, s: Bytes, major: nat, n: U64, head: nat)
    requires 1 <= head <= |s| && major < 7 && Head(major, n) == s[..head]
    requires ReadContent(p, s, major, n, head).Accepted?
    ensures Deterministic(p, ReadContent(p, s, major, n, head).value)
    ensures Encode(ReadContent(p, s, major, n, head).value) == s[..ReadContent(p, s, major, n, head).used]
    decreases |s|, 1, 0
  {
    if major == 2 || major == 3 {
      assert s[..head + n] == s[..head] + s[head..head + n];
    } else if major == 4 {
      EncodeReadItems(p, s[head..], n);
      SplitAt(s, head, ReadItems(p, s[head..], n).used);
    } else if major == 5 {
      EncodeReadEntries(p, s[head..], n, None);
      SplitAt(s, head, ReadEntries(p, s[head..], n, None).used);
    }
  }

  lemma SplitAt(s: Bytes, head: nat, more: nat)
    requires head + more <= |s|
    ensures s[..head + more] == s[..head] + s[head..][..more]
  {
  }

  lemma {:induction false} EncodeReadItems(p: Profile, s: Bytes, n: nat)
    requires ReadItems(p, s, n).Accepted?
    ensures DeterministicItems(p, ReadItems(p, s, n).value)
    ensures EncodeItems(ReadItems(p, s, n).value) == s[..ReadItems(p, s, n).used]
    decreases |s|, 3, n
  {
    if n > 0 {
      var used := Read(p, s).used;
      EncodeRead(p, s);
      EncodeReadItems(p, s[used..], n - 1);
      var more := ReadItems(p, s[used..], n - 1).used;
      SplitAt(s, used, more);
    }
  }

  lemma {:induction false} EncodeReadPair(p: Profile, s: Bytes, previous: Option<Bytes>)
    requires ReadPair(p, s, previous).Accepted?
    ensures var pair := ReadPair(p, s, previous).value;
            && Deterministic(p, pair.key) && Deterministic(p, pair.value)
            && Encode(pair.key) == pair.raw
            && (previous.Some? ==> Less(previous.value, pair.raw))
            && Encode(pair.key) + Encode(pair.value) == s[..ReadPair(p, s, previous).used]
    decreases |s|, 3, 0
  {
    var k := Read(p, s).used;
    EncodeRead(p, s);
    EncodeRead(p, s[k..]);
    var v := Read(p, s[k..]).used;
    SplitAt(s, k, v);
  }

  lemma {:induction false} EncodeReadEntries(p: Profile, s: Bytes, n: nat, previous: Option<Bytes>)
    requires ReadEntries(p, s, n, previous).Accepted?
    ensures DeterministicEntries(p, ReadEntries(p, s, n, previous).value, previous)
    ensures EncodeEntries(ReadEntries(p, s, n, previous).value) == s[..ReadEntries(p, s, n, previous).used]
    decreases |s|, 4, n
  {
    if n > 0 {
      var first := ReadPair(p, s, previous);
      EncodeReadPair(p, s, previous);
      var after := s[first.used..];
      EncodeReadEntries(p, after, n - 1, Some(first.value.raw));
      ReadEntriesStep(p, s, n, previous, after);
      var rest := ReadEntries(p, after, n - 1, Some(first.value.raw));
      SplitAt(s, first.used, rest.used);
    }
  }

  // ----- main results -----

  /** The reader accepts `used` bytes exactly when they are the deterministic encoding of a
      value, and then it returns that value. */
  lemma ReadIsExact(p: Profile, s: Bytes, v: Value, used: nat)
    ensures Read(p, s) == Accepted(v, used)
       <==> used <= |s| && Deterministic(p, v) && Encode(v) == s[..used]
  {
    if Read(p, s) == Accepted(v, used) {
      EncodeRead(p, s);
    }
    if used <= |s| && Deterministic(p, v) && Encode(v) == s[..used] {
      assert s == s[..used] + s[used..];
      ReadEncode(p, v, s[used..]);
    }
  }

  /** Encodings are self-delimiting: no encoding continues another one, so equal byte
      streams hold equal values and equal remainders. */
  lemma PrefixFree(p: Profile, v: Value, w: Value, s: Bytes, t: Bytes)
    requires Deterministic(p, v) && Deterministic(p, w)
    requires Encode(v) + s == Encode(w) + t
    ensures v == w && s == t
  {
    ReadEncode(p, v, s);
    ReadEncode(p, w, t);
    assert s == (Encode(v) + s)[|Encode(v)|..];
    assert t == (Encode(w) + t)[|Encode(w)|..];
  }
}

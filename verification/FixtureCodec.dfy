/** The codec of the fixture audit: a decoder that is lenient about heads, made strict by
    re-encoding what it read. */
module FixtureCodec {
  import opened Bytes
  import opened Domain
  import opened Cbor
  import BigEndian

  /** The dynamic Go values the codec handles. */
  datatype Any =
    | Uint64(u: U64)
    | Int64(i: I64)
    | ByteSlice(raw: Bytes)
    | Str(raw: Bytes)
    | Slice(members: Members)
    | Boolean(b: bool)
    | Nil

  datatype Members = NoMembers | Members(head: Any, tail: Members) {
    function Count(): nat {
      if NoMembers? then 0 else 1 + tail.Count()
    }
  }

  const MAX_ARRAY := 65535

  /** This codec checks neither texts nor floats. */
  const PLAIN := Profile(_ => None, _ => None)

  /** The value a Go value encodes as. */
  function Lower(v: Any): Value {
    match v
    case Uint64(u) => UInt(u)
    case Int64(i) => if i >= 0 then UInt(i) else Negative(-1 - i)
    case ByteSlice(raw) => ByteString(raw)
    case Str(raw) => Text(raw)
    case Slice(members) => Array(LowerAll(members))
    case Boolean(b) => Bool(b)
    case Nil => Null
  }

  function LowerAll(members: Members): (r: Items)
    ensures r.Count() == members.Count()
  {
    match members
    case NoMembers => NoItems
    case Members(head, tail) => Items(Lower(head), LowerAll(tail))
  }

  /** The values the decoder can return: no maps or floats, negative integers in `int64`,
      no array above the fixture limit. */
  predicate Decodable(v: Value) {
    match v
    case UInt(n) => n < TWO_TO_64
    case Negative(n) => n <= MAX_I64
    case ByteString(raw) => |raw| < TWO_TO_64
    case Text(raw) => |raw| < TWO_TO_64
    case Array(items) => items.Count() <= MAX_ARRAY && AllDecodable(items)
    case Map(_) => false
    case Bool(_) => true
    case Null => true
    case Float(_) => false
  }

  predicate AllDecodable(items: Items) {
    match items
    case NoItems => true
    case Items(head, tail) => Decodable(head) && AllDecodable(tail)
  }

  /** The Go value the decoder produces for a value. */
  function Raise(v: Value): (r: Any)
    requires Decodable(v)
    ensures Lower(r) == v
  {
    match v
    case UInt(n) => Uint64(n)
    case Negative(n) => Int64(-1 - n)
    case ByteString(raw) => ByteSlice(raw)
    case Text(raw) => Str(raw)
    case Array(items) => Slice(RaiseAll(items))
    case Bool(b) => Boolean(b)
    case Null => Nil
  }

  function RaiseAll(items: Items): (r: Members)
    requires AllDecodable(items)
    ensures LowerAll(r) == items
  {
    match items
    case NoItems => NoMembers
    case Items(head, tail) => Members(Raise(head), RaiseAll(tail))
  }

  // ----- encoding into a buffer -----

  class Buffer {
    var contents: Bytes

    constructor ()
      ensures contents == []
    {
      contents := [];
    }

    method WriteByte(b: Byte)
      modifies this
      ensures contents == old(contents) + [b]
    {
      contents := contents + [b];
    }

    method Write(bytes: Bytes)
      modifies this
      ensures contents == old(contents) + bytes
    {
      contents := contents + bytes;
    }
  }

  method WriteHead(dst: Buffer, major: nat, n: nat)
    requires major < 8
    modifies dst
    ensures dst.contents == old(dst.contents) + Head(major, n)
  {
    if n < 24 {
      dst.WriteByte(major * 32 + n);
    } else if n <= 255 {
      dst.WriteByte(major * 32 + 24);
      dst.WriteByte(n);
      assert BigEndian.Write(n, 1) == [n];
    } else if n <= 65535 {
      dst.WriteByte(major * 32 + 25);
      dst.Write(BigEndian.Write(n, 2));
    } else if n <= 4294967295 {
      dst.WriteByte(major * 32 + 26);
      dst.Write(BigEndian.Write(n, 4));
    } else {
      dst.WriteByte(major * 32 + 27);
      dst.Write(BigEndian.Write(n, 8));
    }
  }

  method EncodeOne(dst: Buffer, value: Any)
    modifies dst
    ensures dst.contents == old(dst.contents) + Encode(Lower(value))
    decreases value, 0
  {
    match value {
      case Uint64(u) => WriteHead(dst, 0, u);
      case Int64(i) =>
        if i >= 0 {
          WriteHead(dst, 0, i);
        } else {
          WriteHead(dst, 1, -1 - i);
        }
      case ByteSlice(raw) =>
        WriteHead(dst, 2, |raw|);
        dst.Write(raw);
      case Str(raw) =>
        WriteHead(dst, 3, |raw|);
        dst.Write(raw);
      case Slice(members) =>
        WriteHead(dst, 4, members.Count());
        EncodeMembers(dst, members);
      case Boolean(b) => dst.WriteByte(if b then 0xf5 else 0xf4);
      case Nil => dst.WriteByte(0xf6);
    }
  }

  method EncodeMembers(dst: Buffer, members: Members)
    modifies dst
    ensures dst.contents == old(dst.contents) + EncodeItems(LowerAll(members))
    decreases members, 1
  {
    hide EncodeItems, LowerAll;
    var rest := members;
    while rest.Members?
      invariant rest == members || rest < members
      invariant dst.contents + EncodeItems(LowerAll(rest)) == old(dst.contents) + EncodeItems(LowerAll(members))
      decreases rest
    {
      ghost var written := dst.contents;
      EncodeOne(dst, rest.head);
      EncodeOneMore(rest);
      assert dst.contents + EncodeItems(LowerAll(rest.tail)) == written + EncodeItems(LowerAll(rest));
      rest := rest.tail;
    }
    NothingToEncode(rest);
  }

  lemma EncodeOneMore(members: Members)
    requires members.Members?
    ensures EncodeItems(LowerAll(members)) == Encode(Lower(members.head)) + EncodeItems(LowerAll(members.tail))
  {
  }

  lemma NothingToEncode(members: Members)
    requires !members.Members?
    ensures EncodeItems(LowerAll(members)) == []
  {
  }

  // ----- decoding at a cursor -----

  datatype Decoded<+T> = Decoded(value: T, used: nat)

  /** The argument as the decoder reads it: any width will do. */
  function ReadUint(additional: nat, s: Bytes): (r: Option<Decoded<U64>>)
    ensures r.Some? ==> r.value.used <= |s|
  {
    if additional >= 28 then None
    else if additional < 24 then Some(Decoded(additional, 0))
    else
      var width := Width(additional);
      if |s| < width then None
      else
        BigEndian.ReadBound(s[..width]);
        BigEndian.Widths();
        Some(Decoded(BigEndian.Read(s[..width]), width))
  }

  /** What the decoder makes of the front of `s`. */
  function Decode(s: Bytes): (r: Option<Decoded<Any>>)
    ensures r.Some? ==> 1 <= r.value.used <= |s|
    decreases |s|, 1, 0
  {
    if s == [] then None
    else
      var major, additional := s[0] / 32, s[0] % 32;
      if major == 7 then
        if additional == 20 then Some(Decoded(Boolean(false), 1))
        else if additional == 21 then Some(Decoded(Boolean(true), 1))
        else if additional == 22 then Some(Decoded(Nil, 1))
        else None
      else
        match ReadUint(additional, s[1..])
        case None => None
        case Some(argument) => DecodeContent(s, major, argument.value, 1 + argument.used)
  }

  function DecodeContent(s: Bytes, major: nat, n: U64, head: nat): (r: Option<Decoded<Any>>)
    requires 1 <= head <= |s|
    ensures r.Some? ==> head <= r.value.used <= |s|
    decreases |s|, 0, 0
  {
    if major == 0 then Some(Decoded(Uint64(n), head))
    else if major == 1 then
      var magnitude: int := n;
      if magnitude > MAX_I64 then None else Some(Decoded(Int64(-magnitude - 1), head))
    else if major == 2 || major == 3 then
      if n > |s| - head then None
      else
        var raw := s[head..head + n];
        Some(Decoded(if major == 2 then ByteSlice(raw) else Str(raw), head + n))
    else if major == 4 then
      if n > MAX_ARRAY then None
      else
        match DecodeAll(s[head..], n)
        case None => None
        case Some(members) => Some(Decoded(Slice(members.value), head + members.used))
    else None
  }

  function DecodeAll(s: Bytes, n: nat): (r: Option<Decoded<Members>>)
    ensures r.Some? ==> r.value.used <= |s| && r.value.value.Count() == n
    decreases |s|, 2, n
  {
    if n == 0 then Some(Decoded(NoMembers, 0))
    else
      match Decode(s)
      case None => None
      case Some(first) =>
        match DecodeAll(s[first.used..], n - 1)
        case None => None
        case Some(rest) => Some(Decoded(Members(first.value, rest.value), first.used + rest.used))
  }

  class Cursor {
    var pos: nat

    constructor ()
      ensures pos == 0
    {
      pos := 0;
    }
  }

  /** Reads the argument byte by byte, shifting the result left. */
  method ReadUintAt(b: Bytes, cursor: Cursor, additional: nat) returns (n: Option<U64>)
    requires cursor.pos <= |b|
    modifies cursor
    ensures cursor.pos <= |b|
    ensures match ReadUint(additional, b[old(cursor.pos)..])
            case None => n == None
            case Some(d) => n == Some(d.value) && cursor.pos == old(cursor.pos) + d.used
  {
    if additional < 24 {
      return Some(additional);
    }
    if additional >= 28 {
      return None;
    }
    var width := Width(additional);
    var start := cursor.pos;
    if |b| - start < width {
      return None;
    }
    ghost var s := b[start..];
    BigEndian.Widths();
    BigEndian.ReadBound(s[..width]);
    var result: nat := 0;
    for i := 0 to width
      invariant cursor.pos == start + i <= |b|
      invariant result == BigEndian.Read(s[..i])
    {
      assert s[..i + 1][..i] == s[..i];
      result := result * 256 + b[cursor.pos];
      cursor.pos := cursor.pos + 1;
    }
    return Some(result);
  }

  method DecodeItem(b: Bytes, cursor: Cursor) returns (value: Option<Any>)
    requires cursor.pos <= |b|
    modifies cursor
    ensures cursor.pos <= |b|
    ensures match Decode(b[old(cursor.pos)..])
            case None => value == None
            case Some(d) => value == Some(d.value) && cursor.pos == old(cursor.pos) + d.used
    decreases |b| - cursor.pos, 1
  {
    hide DecodeAll;
    if cursor.pos >= |b| {
      return None;
    }
    var start := cursor.pos;
    ghost var s := b[start..];
    var first := b[start];
    cursor.pos := start + 1;
    assert s[0] == first && s[1..] == b[start + 1..];
    var major, additional := first / 32, first % 32;
    if major == 7 {
      if additional == 20 {
        return Some(Boolean(false));
      }
      if additional == 21 {
        return Some(Boolean(true));
      }
      if additional == 22 {
        return Some(Nil);
      }
      return None;
    }
    var argument := ReadUintAt(b, cursor, additional);
    if argument == None {
      return None;
    }
    var n := argument.value;
    var offset := cursor.pos;
    ghost var head := offset - start;
    assert Decode(s) == DecodeContent(s, major, n, head);
    assert s[head..] == b[offset..];
    if major == 0 {
      return Some(Uint64(n));
    } else if major == 1 {
      var magnitude: int := n;
      if magnitude > MAX_I64 {
        return None;
      }
      return Some(Int64(-magnitude - 1));
    } else if major == 2 || major == 3 {
      if n > |b| - offset {
        return None;
      }
      var raw := b[offset..offset + n];
      assert raw == s[head..head + n];
      cursor.pos := offset + n;
      return Some(if major == 2 then ByteSlice(raw) else Str(raw));
    } else if major == 4 {
      if n > MAX_ARRAY {
        return None;
      }
      var members := DecodeMembers(b, cursor, n);
      return if members == None then None else Some(Slice(members.value));
    } else {
      return None;
    }
  }

  method DecodeMembers(b: Bytes, cursor: Cursor, n: nat) returns (members: Option<Members>)
    requires cursor.pos <= |b|
    modifies cursor
    ensures cursor.pos <= |b|
    ensures match DecodeAll(b[old(cursor.pos)..], n)
            case None => members == None
            case Some(d) => members == Some(d.value) && cursor.pos == old(cursor.pos) + d.used
    decreases |b| - cursor.pos, 2
  {
    hide Decode, DecodeAll;
    var out: seq<Any> := [];
    ghost var start := cursor.pos;
    ghost var whole := DecodeAll(b[start..], n);
    assert Prepended([], 0, whole) == whole;
    for i := 0 to n
      invariant start <= cursor.pos <= |b|
      invariant whole == Prepended(out, cursor.pos - start, DecodeAll(b[cursor.pos..], n - i))
    {
      MemberDecoded(b, start, cursor.pos, n - i, out);
      var v := DecodeItem(b, cursor);
      if v == None {
        return None;
      }
      out := out + [v.value];
    }
    NoneLeft(b[cursor.pos..]);
    return Some(Prepend(out, NoMembers));
  }

  function Prepend(done: seq<Any>, tail: Members): Members {
    if done == [] then tail else Members(done[0], Prepend(done[1..], tail))
  }

  /** The decoding of a whole array, given the elements decoded so far and the rest. */
  ghost function Prepended(done: seq<Any>, used: nat, rest: Option<Decoded<Members>>): Option<Decoded<Members>> {
    if rest == None then None else Some(Decoded(Prepend(done, rest.value.value), used + rest.value.used))
  }

  lemma {:induction false} PrependOne(done: seq<Any>, v: Any, tail: Members)
    ensures Prepend(done + [v], tail) == Prepend(done, Members(v, tail))
  {
    if done == [] {
      assert Prepend([v], tail) == Members(v, Prepend([v][1..], tail));
    } else {
      assert (done + [v])[1..] == done[1..] + [v];
      PrependOne(done[1..], v, tail);
    }
  }

  lemma MemberDecoded(b: Bytes, start: nat, offset: nat, n: nat, done: seq<Any>)
    requires start <= offset <= |b| && n > 0
    ensures var whole, r := Prepended(done, offset - start, DecodeAll(b[offset..], n)), Decode(b[offset..]);
            && (r == None ==> whole == None)
            && (r.Some? ==>
                  whole == Prepended(done + [r.value.value], offset + r.value.used - start,
                                     DecodeAll(b[offset + r.value.used..], n - 1)))
  {
    hide Decode;
    var r := Decode(b[offset..]);
    if r.Some? {
      assert b[offset..][r.value.used..] == b[offset + r.value.used..];
      var rest := DecodeAll(b[offset + r.value.used..], n - 1);
      if rest.Some? {
        PrependOne(done, r.value.value, rest.value.value);
      }
    }
  }

  lemma NoneLeft(s: Bytes)
    ensures DecodeAll(s, 0) == Some(Decoded(NoMembers, 0))
  {
  }

  // ----- the lenient decoder against the strict reader -----

  /** On bytes the strict reader accepts, the decoder agrees with it on decodable values and
      refuses the others. */
  lemma {:induction false} DecodeFollowsRead(s: Bytes)
    requires Read(PLAIN, s).Accepted?
    ensures var r := Read(PLAIN, s);
            Decode(s) == if Decodable(r.value) then Some(Decoded(Raise(r.value), r.used)) else None
    decreases |s|, 1, 0
  {
    var major, additional := s[0] / 32, s[0] % 32;
    if major < 7 {
      var a := ReadArgument(additional, s[1..]);
      assert ReadUint(additional, s[1..]) == Some(Decoded(a.n, a.used));
      if major == 4 {
        DecodeFollowsReadArray(s, a.n, 1 + a.used);
      } else if major == 5 {
        assert Read(PLAIN, s) == ReadMap(PLAIN, s, a.n, 1 + a.used);
      }
    }
  }

  lemma {:induction false} DecodeFollowsReadArray(s: Bytes, n: U64, head: nat)
    requires 1 <= head <= |s| && ReadContent(PLAIN, s, 4, n, head).Accepted?
    ensures var r := ReadContent(PLAIN, s, 4, n, head);
            DecodeContent(s, 4, n, head)
            == if Decodable(r.value) then Some(Decoded(Raise(r.value), r.used)) else None
    decreases |s|, 0, 0
  {
    var items := ReadItems(PLAIN, s[head..], n);
    assert ReadArray(PLAIN, s, n, head) == Accepted(Array(items.value), head + items.used);
    DecodeFollowsReadItems(s[head..], n);
  }

  lemma {:induction false} DecodeFollowsReadItems(s: Bytes, n: nat)
    requires ReadItems(PLAIN, s, n).Accepted?
    ensures var r := ReadItems(PLAIN, s, n);
            DecodeAll(s, n) == if AllDecodable(r.value) then Some(Decoded(RaiseAll(r.value), r.used)) else None
    decreases |s|, 2, n
  {
    hide Decode, Cbor.Read;
    if n > 0 {
      DecodeFollowsRead(s);
      DecodeFollowsReadItems(s[Read(PLAIN, s).used..], n - 1);
    }
  }

  lemma {:induction false} DecodableIsDeterministic(v: Value)
    requires Decodable(v)
    ensures Deterministic(PLAIN, v)
  {
    if v.Array? {
      AllDecodableIsDeterministic(v.items);
    }
  }

  lemma {:induction false} AllDecodableIsDeterministic(items: Items)
    requires AllDecodable(items)
    ensures DeterministicItems(PLAIN, items)
  {
    if items.Items? {
      DecodableIsDeterministic(items.head);
      AllDecodableIsDeterministic(items.tail);
    }
  }

  /** Everything the decoder returns is one of its own canonical values. */
  lemma {:induction false} DecodeIsNormal(s: Bytes)
    requires Decode(s).Some?
    ensures Decodable(Lower(Decode(s).value.value)) && Raise(Lower(Decode(s).value.value)) == Decode(s).value.value
    decreases |s|, 1, 0
  {
    var major, additional := s[0] / 32, s[0] % 32;
    if major == 4 {
      var argument := ReadUint(additional, s[1..]).value;
      DecodeAllIsNormal(s[1 + argument.used..], argument.value);
    }
  }

  lemma {:induction false} DecodeAllIsNormal(s: Bytes, n: nat)
    requires DecodeAll(s, n).Some?
    ensures AllDecodable(LowerAll(DecodeAll(s, n).value.value))
    ensures RaiseAll(LowerAll(DecodeAll(s, n).value.value)) == DecodeAll(s, n).value.value
    decreases |s|, 2, n
  {
    if n > 0 {
      DecodeIsNormal(s);
      DecodeAllIsNormal(s[Decode(s).value.used..], n - 1);
    }
  }

  // ----- main results -----

  /** A byte string is accepted exactly when it is the encoding of a decodable value, and
      what comes back is that value with its integers normalised. */
  method DecodeBytes(b: Bytes) returns (result: Option<Any>)
    ensures result.Some? ==>
              && Decodable(Lower(result.value))
              && result.value == Raise(Lower(result.value))
              && Encode(Lower(result.value)) == b
    ensures result == None ==> forall v :: Decodable(v) ==> Encode(v) != b
  {
    var cursor := new Cursor();
    var value := DecodeItem(b, cursor);
    assert b[0..] == b;
    forall v | Decodable(v) && Encode(v) == b ensures Decode(b) == Some(Decoded(Raise(v), |b|)) {
      DecodableIsDeterministic(v);
      EncodingDecodes(v, []);
      assert b + [] == b;
    }
    if value == None {
      return None;
    }
    if cursor.pos != |b| {
      return None;
    }
    DecodeIsNormal(b);
    var out := new Buffer();
    EncodeOne(out, value.value);
    if out.contents != b {
      return None;
    }
    return value;
  }

  lemma EncodingDecodes(v: Value, rest: Bytes)
    requires Deterministic(PLAIN, v)
    ensures Decode(Encode(v) + rest) == if Decodable(v) then Some(Decoded(Raise(v), |Encode(v)|)) else None
  {
    ReadEncode(PLAIN, v, rest);
    DecodeFollowsRead(Encode(v) + rest);
  }

  /** Decoding an encoded Go value returns it with non-negative `int64` values turned into
      `uint64`, if and only if no array in it exceeds the fixture limit. */
  lemma RoundTrip(v: Any)
    requires Deterministic(PLAIN, Lower(v))
    ensures Decode(Encode(Lower(v))) == (if Decodable(Lower(v)) then Some(Decoded(Raise(Lower(v)), |Encode(Lower(v))|)) else None)
    ensures Decodable(Lower(v)) <==> SmallArrays(v)
  {
    EncodingDecodes(Lower(v), []);
    assert Encode(Lower(v)) + [] == Encode(Lower(v));
    SmallIsDecodable(v);
  }

  predicate SmallArrays(v: Any) {
    v.Slice? ==> v.members.Count() <= MAX_ARRAY && AllSmall(v.members)
  }

  predicate AllSmall(members: Members) {
    match members
    case NoMembers => true
    case Members(head, tail) => SmallArrays(head) && AllSmall(tail)
  }

  lemma {:induction false} SmallIsDecodable(v: Any)
    requires Deterministic(PLAIN, Lower(v))
    ensures Decodable(Lower(v)) <==> SmallArrays(v)
  {
    if v.Slice? {
      AllSmallIsDecodable(v.members);
    }
  }

  lemma {:induction false} AllSmallIsDecodable(members: Members)
    requires DeterministicItems(PLAIN, LowerAll(members))
    ensures AllDecodable(LowerAll(members)) <==> AllSmall(members)
  {
    if members.Members? {
      SmallIsDecodable(members.head);
      AllSmallIsDecodable(members.tail);
    }
  }

  /** The audit codec and the byte scanner accept the same inputs among decodable values. */
  lemma AuditAgreesWithScanner(b: Bytes)
    ensures (exists v :: Decodable(v) && Encode(v) == b)
       <==> Read(PLAIN, b).Accepted? && Read(PLAIN, b).used == |b| && Decodable(Read(PLAIN, b).value)
  {
    forall v | Decodable(v) && Encode(v) == b ensures Read(PLAIN, b) == Accepted(v, |b|) {
      DecodableIsDeterministic(v);
      ReadIsExact(PLAIN, b, v, |b|);
      assert b[..|b|] == b;
    }
    if Read(PLAIN, b).Accepted? && Read(PLAIN, b).used == |b| {
      EncodeRead(PLAIN, b);
      assert b[..|b|] == b;
    }
  }
}

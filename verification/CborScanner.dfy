/** The two byte scanners, one per implementation language, proved against one reader.

    Both accept exactly the deterministic encodings, except that the TypeScript parser
    also gives up below nesting depth 64. */
module CborScanner {
  import opened Bytes
  import opened Domain
  import opened Cbor
  import BigEndian

  /** Reading the rest of a sequence after `skipped` bytes of it settles the whole sequence. */
  ghost predicate Settles<T>(whole: Reading<T>, skipped: nat, rest: Reading<T>) {
    match rest
    case Accepted(_, more) => whole.Accepted? && whole.used == skipped + more
    case Violation(code) => whole == Violation(code)
    case Unclassified => whole == Unclassified
  }

  lemma ItemSettled(p: Profile, whole: Reading<Items>, data: Bytes, from: nat, offset: nat, n: nat)
    requires from <= offset <= |data| && n > 0
    requires Settles(whole, offset - from, ReadItems(p, data[offset..], n))
    ensures var r := Read(p, data[offset..]);
            && (r.Violation? ==> whole == Violation(r.code))
            && (r.Unclassified? ==> whole == Unclassified)
            && (r.Accepted? ==>
                  Settles(whole, offset + r.used - from, ReadItems(p, data[offset + r.used..], n - 1)))
  {
    var r := Read(p, data[offset..]);
    if r.Accepted? {
      assert data[offset..][r.used..] == data[offset + r.used..];
    }
  }

  lemma PairSettled(p: Profile, whole: Reading<Entries>, data: Bytes, from: nat, offset: nat, n: nat,
                    previous: Option<Bytes>)
    requires from <= offset <= |data| && n > 0
    requires Settles(whole, offset - from, ReadEntries(p, data[offset..], n, previous))
    ensures var r := ReadPair(p, data[offset..], previous);
            && (r.Violation? ==> whole == Violation(r.code))
            && (r.Unclassified? ==> whole == Unclassified)
            && (r.Accepted? ==>
                  Settles(whole, offset + r.used - from,
                          ReadEntries(p, data[offset + r.used..], n - 1, Some(r.value.raw))))
  {
    var r := ReadPair(p, data[offset..], previous);
    if r.Accepted? {
      assert data[offset..][r.used..] == data[offset + r.used..];
    }
  }

  lemma NothingLeft(p: Profile, s: Bytes, previous: Option<Bytes>)
    ensures ReadItems(p, s, 0) == Accepted(NoItems, 0)
    ensures ReadEntries(p, s, 0, previous) == Accepted(NoEntries, 0)
  {
  }

  // ----- the Go scanner -----

  datatype Verdict = Clean | Broken(code: Code) | Unreadable

  ghost predicate Agrees<T>(reading: Reading<T>, start: nat, end: nat, verdict: Verdict) {
    match reading
    case Accepted(_, used) => verdict == Clean && end == start + used
    case Violation(code) => verdict == Broken(code)
    case Unclassified => verdict == Unreadable
  }

  /** Scans one item at `start`, leaving `end` behind it. */
  method ScanItem(p: Profile, data: Bytes, start: nat) returns (end: nat, verdict: Verdict)
    requires start <= |data|
    ensures Agrees(Read(p, data[start..]), start, end, verdict)
    decreases |data| - start, 1
  {
    if start >= |data| {
      return start, Unreadable;
    }
    var initial := data[start];
    var major, additional := initial / 32, initial % 32;
    var offset := start + 1;
    ghost var s := data[start..];
    assert s[0] == initial && s[1..] == data[offset..];
    if additional == 31 {
      return offset, Broken(IndefiniteLength);
    }
    if major == 7 {
      if additional == 20 || additional == 21 || additional == 22 {
        return offset, Clean;
      } else if additional == 23 || additional == 24 {
        return offset, Broken(SimpleValueForbidden);
      } else if additional == 25 || additional == 26 || additional == 27 {
        var width := Width(additional);
        if |data| - offset < width {
          return offset, Unreadable;
        }
        offset := offset + width;
        var verdictOnFloat := p.float(data[start..offset]);
        assert data[start..offset] == s[..1 + width];
        return offset, if verdictOnFloat.Some? then Broken(verdictOnFloat.value) else Clean;
      } else {
        return offset, Unreadable;
      }
    }
    if additional >= 28 {
      return offset, Unreadable;
    }
    var argument := ReadArgument(additional, data[offset..]);
    if argument == Truncated {
      return offset, Unreadable;
    }
    if argument == NotShortest {
      return offset, Broken(NonPreferredInteger);
    }
    assert Read(p, s) == ReadContent(p, s, major, argument.n, 1 + argument.used);
    end, verdict := ScanContent(p, data, start, offset + argument.used, major, argument.n);
  }

  /** The switch on the major type, once the argument `n` has been read up to `offset`. */
  method ScanContent(p: Profile, data: Bytes, start: nat, offset: nat, major: nat, n: nat)
    returns (end: nat, verdict: Verdict)
    requires start < offset <= |data| && major < 7
    ensures Agrees(ReadContent(p, data[start..], major, n, offset - start), start, end, verdict)
    decreases |data| - start, 0
  {
    hide Cbor.ReadItems, Cbor.ReadEntries;
    ghost var s, head := data[start..], offset - start;
    assert s[head..] == data[offset..];
    if major == 0 || major == 1 {
      return offset, Clean;
    } else if major == 2 || major == 3 {
      if n > |data| - offset {
        return offset, Unreadable;
      }
      var raw := data[offset..offset + n];
      assert raw == s[head..head + n];
      if major == 3 && p.text(raw).Some? {
        return offset + n, Broken(p.text(raw).value);
      }
      return offset + n, Clean;
    } else if major == 4 {
      if n > |data| - offset {
        return offset, Unreadable;
      }
      end, verdict := ScanItems(p, data, offset, n);
    } else if major == 5 {
      if n > (|data| - offset) / 2 {
        return offset, Unreadable;
      }
      end, verdict := ScanEntries(p, data, offset, n);
    } else {
      return offset, Broken(SemanticTagForbidden);
    }
  }

  method ScanItems(p: Profile, data: Bytes, from: nat, n: nat) returns (end: nat, verdict: Verdict)
    requires from <= |data|
    ensures Agrees(ReadItems(p, data[from..], n), from, end, verdict)
    decreases |data| - from, 3
  {
    hide Cbor.Read, Cbor.ReadItems;
    var offset := from;
    ghost var whole := ReadItems(p, data[from..], n);
    for i := 0 to n
      invariant from <= offset <= |data|
      invariant Settles(whole, offset - from, ReadItems(p, data[offset..], n - i))
    {
      ItemSettled(p, whole, data, from, offset, n - i);
      end, verdict := ScanItem(p, data, offset);
      if verdict != Clean {
        return;
      }
      offset := end;
    }
    NothingLeft(p, data[offset..], None);
    return offset, Clean;
  }

  method ScanEntries(p: Profile, data: Bytes, from: nat, n: nat) returns (end: nat, verdict: Verdict)
    requires from <= |data|
    ensures Agrees(ReadEntries(p, data[from..], n, None), from, end, verdict)
    decreases |data| - from, 3
  {
    hide Cbor.ReadPair, Cbor.ReadEntries;
    var offset := from;
    var previous: Option<Bytes> := None;
    ghost var whole := ReadEntries(p, data[from..], n, None);
    for i := 0 to n
      invariant from <= offset <= |data|
      invariant Settles(whole, offset - from, ReadEntries(p, data[offset..], n - i, previous))
    {
      PairSettled(p, whole, data, from, offset, n - i, previous);
      var keyRaw;
      end, keyRaw, verdict := ScanPair(p, data, offset, previous);
      if verdict != Clean {
        return;
      }
      previous, offset := Some(keyRaw), end;
    }
    NothingLeft(p, data[offset..], previous);
    return offset, Clean;
  }

  /** The body of the map loop: a key, its place in the order, and its value. */
  method ScanPair(p: Profile, data: Bytes, start: nat, previous: Option<Bytes>)
    returns (end: nat, keyRaw: Bytes, verdict: Verdict)
    requires start <= |data|
    ensures Agrees(ReadPair(p, data[start..], previous), start, end, verdict)
    ensures verdict == Clean ==> keyRaw == ReadPair(p, data[start..], previous).value.raw
    decreases |data| - start, 2
  {
    hide Cbor.Read;
    ghost var s := data[start..];
    end, verdict := ScanItem(p, data, start);
    if verdict != Clean {
      return end, [], verdict;
    }
    keyRaw := data[start..end];
    assert keyRaw == s[..end - start] && s[end - start..] == data[end..];
    if previous.Some? {
      if previous.value == keyRaw {
        return end, keyRaw, Broken(DuplicateMapKey);
      }
      if !Less(previous.value, keyRaw) {
        return end, keyRaw, Broken(MapKeyOrder);
      }
    }
    end, verdict := ScanItem(p, data, end);
  }

  /** The scanner is clean exactly on the deterministic encodings, and bytes left over
      after one are reported as such. */
  method Scan(p: Profile, data: Bytes) returns (verdict: Verdict)
    ensures verdict == Clean <==> IsEncoding(p, data)
    ensures (exists v :: Deterministic(p, v) && Encode(v) < data) ==> verdict == Broken(TrailingBytes)
  {
    var end;
    end, verdict := ScanItem(p, data, 0);
    assert data[0..] == data;
    ghost var reading := Read(p, data);
    if verdict == Clean {
      EncodeRead(p, data);
      assert end == |data| ==> data[..end] == data;
    }
    forall v | Deterministic(p, v) && Encode(v) <= data ensures reading == Accepted(v, |Encode(v)|) {
      ReadIsExact(p, data, v, |Encode(v)|);
    }
    if verdict == Clean && end != |data| {
      verdict := Broken(TrailingBytes);
    }
  }

  // ----- the TypeScript parser -----

  const MAX_DEPTH := 64

  /** How many containers the deepest item of `v` sits inside. */
  function Depth(v: Value): nat {
    match v
    case Array(items) => ItemsDepth(items)
    case Map(entries) => EntriesDepth(entries)
    case _ => 0
  }

  function Max(a: nat, b: nat): nat {
    if a < b then b else a
  }

  function ItemsDepth(items: Items): nat {
    match items
    case NoItems => 0
    case Items(head, tail) => Max(1 + Depth(head), ItemsDepth(tail))
  }

  function EntriesDepth(entries: Entries): nat {
    match entries
    case NoEntries => 0
    case Entries(key, value, tail) => Max(1 + Max(Depth(key), Depth(value)), EntriesDepth(tail))
  }

  /** Either the reader accepts a value whose nesting stays within the limit when it starts
      at `depth`, and the parse ends where the reader ended, or the parse throws. */
  ghost predicate Parses(reading: Reading<Value>, depth: nat, start: nat, end: Option<nat>) {
    if reading.Accepted? && depth + Depth(reading.value) <= MAX_DEPTH
    then end == Some(start + reading.used)
    else end == None
  }

  ghost predicate ItemsParse(reading: Reading<Items>, depth: nat, from: nat, end: Option<nat>) {
    if reading.Accepted? && depth + ItemsDepth(reading.value) <= MAX_DEPTH
    then end == Some(from + reading.used)
    else end == None
  }

  ghost predicate EntriesParse(reading: Reading<Entries>, depth: nat, from: nat, end: Option<nat>) {
    if reading.Accepted? && depth + EntriesDepth(reading.value) <= MAX_DEPTH
    then end == Some(from + reading.used)
    else end == None
  }

  /** `None` stands for every exception the parser throws, whatever its code. The argument
      is read before the major type is looked at, and lengths are not checked against the
      bytes that are left: a container that is too long runs into the end instead. */
  method ParseItem(p: Profile, bytes: Bytes, start: nat, depth: nat) returns (end: Option<nat>)
    requires start <= |bytes|
    ensures Parses(Read(p, bytes[start..]), depth, start, end)
    decreases |bytes| - start, 1
  {
    if depth > MAX_DEPTH || start >= |bytes| {
      return None;
    }
    var initial := bytes[start];
    var major, additional := initial / 32, initial % 32;
    var offset := start + 1;
    ghost var s := bytes[start..];
    assert s[0] == initial && s[1..] == bytes[offset..];
    if additional >= 28 {
      return None;
    }
    var width := Width(additional);
    if |bytes| - offset < width {
      return None;
    }
    var argument := if width == 0 then additional else BigEndian.Read(bytes[offset..offset + width]);
    assert bytes[offset..offset + width] == s[1..][..width];
    if (major != 7 || additional == 24) && Additional(argument) < additional {
      return None;
    }
    offset := offset + width;
    if major == 7 {
      if additional == 20 || additional == 21 || additional == 22 {
        return Some(offset);
      }
      if additional == 23 || additional == 24 {
        return None;
      }
      if additional < 20 || p.float(bytes[start..offset]).Some? {
        assert bytes[start..offset] == s[..1 + width];
        return None;
      }
      assert bytes[start..offset] == s[..1 + width];
      return Some(offset);
    }
    assert Read(p, s) == ReadContent(p, s, major, argument, 1 + width);
    end := ParseContent(p, bytes, start, offset, depth, major, argument);
  }

  method ParseContent(p: Profile, bytes: Bytes, start: nat, offset: nat, depth: nat, major: nat, n: nat)
    returns (end: Option<nat>)
    requires start < offset <= |bytes| && major < 7 && depth <= MAX_DEPTH
    ensures Parses(ReadContent(p, bytes[start..], major, n, offset - start), depth, start, end)
    decreases |bytes| - start, 0
  {
    hide Cbor.ReadItems, Cbor.ReadEntries;
    ghost var s, head := bytes[start..], offset - start;
    assert s[head..] == bytes[offset..];
    if major == 0 || major == 1 {
      return Some(offset);
    }
    if major == 2 || major == 3 {
      if offset + n > |bytes| {
        return None;
      }
      var raw := bytes[offset..offset + n];
      assert raw == s[head..head + n];
      if major == 3 && p.text(raw).Some? {
        return None;
      }
      return Some(offset + n);
    }
    if major == 4 {
      end := ParseItems(p, bytes, offset, depth, n);
    } else if major == 5 {
      end := ParseEntries(p, bytes, offset, depth, n);
    } else {
      return None;
    }
  }

  /** As `Settles`, with the depth of what was already parsed. */
  ghost predicate ItemsLeft(whole: Reading<Items>, skipped: nat, deepest: nat, rest: Reading<Items>) {
    && Settles(whole, skipped, rest)
    && (rest.Accepted? ==> ItemsDepth(whole.value) == Max(deepest, ItemsDepth(rest.value)))
  }

  lemma ItemParsed(p: Profile, whole: Reading<Items>, data: Bytes, from: nat, offset: nat, deepest: nat, n: nat)
    requires from <= offset <= |data| && n > 0
    requires ItemsLeft(whole, offset - from, deepest, ReadItems(p, data[offset..], n))
    ensures var r := Read(p, data[offset..]);
            && (!r.Accepted? ==> !whole.Accepted?)
            && (r.Accepted? && whole.Accepted? ==> 1 + Depth(r.value) <= ItemsDepth(whole.value))
            && (r.Accepted? ==>
                  ItemsLeft(whole, offset + r.used - from, Max(deepest, 1 + Depth(r.value)),
                            ReadItems(p, data[offset + r.used..], n - 1)))
  {
    var r := Read(p, data[offset..]);
    if r.Accepted? {
      assert data[offset..][r.used..] == data[offset + r.used..];
    }
  }

  method ParseItems(p: Profile, bytes: Bytes, from: nat, depth: nat, n: nat) returns (end: Option<nat>)
    requires from <= |bytes| && depth <= MAX_DEPTH
    ensures ItemsParse(ReadItems(p, bytes[from..], n), depth, from, end)
    decreases |bytes| - from, 3
  {
    hide Cbor.Read, Cbor.ReadItems;
    var offset := from;
    ghost var whole, deepest := ReadItems(p, bytes[from..], n), 0;
    for i := 0 to n
      invariant from <= offset <= |bytes| && depth + deepest <= MAX_DEPTH
      invariant ItemsLeft(whole, offset - from, deepest, ReadItems(p, bytes[offset..], n - i))
    {
      ghost var child := Read(p, bytes[offset..]);
      ItemParsed(p, whole, bytes, from, offset, deepest, n - i);
      end := ParseItem(p, bytes, offset, depth + 1);
      if end == None {
        return;
      }
      deepest := Max(deepest, 1 + Depth(child.value));
      offset := end.value;
    }
    NothingLeft(p, bytes[offset..], None);
    return Some(offset);
  }

  ghost predicate EntriesLeft(whole: Reading<Entries>, skipped: nat, deepest: nat, rest: Reading<Entries>) {
    && Settles(whole, skipped, rest)
    && (rest.Accepted? ==> EntriesDepth(whole.value) == Max(deepest, EntriesDepth(rest.value)))
  }

  ghost function PairDepth(pair: Pair): nat {
    1 + Max(Depth(pair.key), Depth(pair.value))
  }

  lemma PairParsed(p: Profile, whole: Reading<Entries>, data: Bytes, from: nat, offset: nat, deepest: nat,
                   n: nat, previous: Option<Bytes>)
    requires from <= offset <= |data| && n > 0
    requires EntriesLeft(whole, offset - from, deepest, ReadEntries(p, data[offset..], n, previous))
    ensures var r := ReadPair(p, data[offset..], previous);
            && (!r.Accepted? ==> !whole.Accepted?)
            && (r.Accepted? && whole.Accepted? ==> PairDepth(r.value) <= EntriesDepth(whole.value))
            && (r.Accepted? ==>
                  EntriesLeft(whole, offset + r.used - from, Max(deepest, PairDepth(r.value)),
                              ReadEntries(p, data[offset + r.used..], n - 1, Some(r.value.raw))))
  {
    var r := ReadPair(p, data[offset..], previous);
    if r.Accepted? {
      assert data[offset..][r.used..] == data[offset + r.used..];
    }
  }

  /** The set of keys never decides anything: a key seen before is not after the last one. */
  ghost predicate UpTo(keys: set<Bytes>, previous: Option<Bytes>) {
    forall key :: key in keys ==> previous.Some? && (key == previous.value || Less(key, previous.value))
  }

  lemma UpToNext(keys: set<Bytes>, previous: Option<Bytes>, raw: Bytes)
    requires UpTo(keys, previous) && (previous.Some? ==> Less(previous.value, raw))
    ensures UpTo(keys + {raw}, Some(raw)) && raw !in keys
  {
    forall key | key in keys ensures Less(key, raw) {
      if key != previous.value {
        LessTransitive(key, previous.value, raw);
      }
    }
    LessIrreflexive(raw);
  }

  method ParseEntries(p: Profile, bytes: Bytes, from: nat, depth: nat, n: nat) returns (end: Option<nat>)
    requires from <= |bytes| && depth <= MAX_DEPTH
    ensures EntriesParse(ReadEntries(p, bytes[from..], n, None), depth, from, end)
    decreases |bytes| - from, 3
  {
    hide Cbor.ReadPair, Cbor.ReadEntries;
    var offset := from;
    var previous: Option<Bytes> := None;
    var keys: set<Bytes> := {};
    ghost var whole, deepest := ReadEntries(p, bytes[from..], n, None), 0;
    for i := 0 to n
      invariant from <= offset <= |bytes| && depth + deepest <= MAX_DEPTH
      invariant UpTo(keys, previous)
      invariant EntriesLeft(whole, offset - from, deepest, ReadEntries(p, bytes[offset..], n - i, previous))
    {
      ghost var pair := ReadPair(p, bytes[offset..], previous);
      PairParsed(p, whole, bytes, from, offset, deepest, n - i, previous);
      var raw;
      end, raw := ParsePair(p, bytes, offset, depth, previous, keys);
      if end == None {
        return;
      }
      UpToNext(keys, previous, raw);
      deepest := Max(deepest, PairDepth(pair.value));
      keys, previous, offset := keys + {raw}, Some(raw), end.value;
    }
    NothingLeft(p, bytes[offset..], previous);
    return Some(offset);
  }

  method ParsePair(p: Profile, bytes: Bytes, start: nat, depth: nat, previous: Option<Bytes>, keys: set<Bytes>)
    returns (end: Option<nat>, raw: Bytes)
    requires start <= |bytes| && depth <= MAX_DEPTH && UpTo(keys, previous)
    ensures var r := ReadPair(p, bytes[start..], previous);
            if r.Accepted? && depth + PairDepth(r.value) <= MAX_DEPTH
            then end == Some(start + r.used) && raw == r.value.raw
              && (previous.Some? ==> Less(previous.value, raw))
            else end == None
    decreases |bytes| - start, 2
  {
    hide Cbor.Read;
    ghost var s := bytes[start..];
    var key := ParseItem(p, bytes, start, depth + 1);
    if key == None {
      return None, [];
    }
    var offset := key.value;
    raw := bytes[start..offset];
    assert raw == s[..offset - start] && s[offset - start..] == bytes[offset..];
    LessIrreflexive(raw);
    if previous.Some? && !Less(previous.value, raw) {
      return None, raw;
    }
    UpToNext(keys, previous, raw);
    if raw in keys {
      assert false;
    }
    end := ParseItem(p, bytes, offset, depth + 1);
  }

  /** The TypeScript parser accepts a whole input exactly when the Go scanner does and no
      item lies deeper than the limit. */
  method Parse(p: Profile, bytes: Bytes) returns (accepted: bool)
    ensures accepted <==> IsShallowEncoding(p, bytes)
  {
    var end := ParseItem(p, bytes, 0, 0);
    accepted := end == Some(|bytes|);
    assert bytes[0..] == bytes && bytes[..|bytes|] == bytes;
    ghost var reading := Read(p, bytes);
    if reading.Accepted? {
      EncodeRead(p, bytes);
    }
    forall v | Deterministic(p, v) && Encode(v) == bytes ensures reading == Accepted(v, |bytes|) {
      ReadIsExact(p, bytes, v, |bytes|);
    }
  }

  // ----- where the implementations part -----

  ghost predicate IsEncoding(p: Profile, data: Bytes) {
    exists v :: Deterministic(p, v) && Encode(v) == data
  }

  ghost predicate IsShallowEncoding(p: Profile, data: Bytes) {
    exists v :: Deterministic(p, v) && Encode(v) == data && Depth(v) <= MAX_DEPTH
  }

  /** The inputs the two implementations disagree on are the encodings of deep values. */
  lemma ImplementationsDifferOnlyInDepth(p: Profile, data: Bytes)
    ensures IsShallowEncoding(p, data) ==> IsEncoding(p, data)
    ensures IsEncoding(p, data) && !IsShallowEncoding(p, data)
       <==> exists v :: Deterministic(p, v) && Encode(v) == data && Depth(v) > MAX_DEPTH
  {
    if v :| Deterministic(p, v) && Encode(v) == data {
      forall w | Deterministic(p, w) && Encode(w) == data ensures w == v {
        PrefixFree(p, w, v, [], []);
      }
      assert IsShallowEncoding(p, data) <==> Depth(v) <= MAX_DEPTH;
      assert (exists w :: Deterministic(p, w) && Encode(w) == data && Depth(w) > MAX_DEPTH) <==> Depth(v) > MAX_DEPTH;
    }
  }

  /** `levels` arrays inside one another. */
  function Nest(levels: nat): Value {
    if levels == 0 then Null else Array(Items(Nest(levels - 1), NoItems))
  }

  lemma {:induction false} NestIsDeterministic(p: Profile, levels: nat)
    ensures Deterministic(p, Nest(levels)) && Depth(Nest(levels)) == levels
  {
    if levels > 0 {
      NestIsDeterministic(p, levels - 1);
      assert Items(Nest(levels - 1), NoItems).Count() == 1 + NoItems.Count();
      assert ItemsDepth(NoItems) == 0;
    }
  }

  /** They do disagree: sixty-five nested arrays pass in Go and throw in TypeScript. */
  lemma ImplementationsDisagree(p: Profile)
    ensures IsEncoding(p, Encode(Nest(MAX_DEPTH + 1))) && !IsShallowEncoding(p, Encode(Nest(MAX_DEPTH + 1)))
  {
    NestIsDeterministic(p, MAX_DEPTH + 1);
    ImplementationsDifferOnlyInDepth(p, Encode(Nest(MAX_DEPTH + 1)));
  }
}

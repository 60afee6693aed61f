/** Keys made by joining names with a separator the names may hold themselves: the namespace of an
    idempotency key, and the key an actor's access is looked up by. When does such a key tell whose
    it is? */
module Namespaces {
  import opened Bytes
  import opened Domain
  import opened Sorting
  import opened Resolver

  const SLASH: Byte := 0x2f
  const COLON: Byte := 0x3a

  // ----- machine identifiers, joined and cut -----

  function After(a: Bytes, separator: Byte, rest: Bytes): Bytes {
    a + [separator] + rest
  }

  lemma AfterParts(a: Bytes, separator: Byte, rest: Bytes)
    ensures var s := After(a, separator, rest);
            && |s| == |a| + 1 + |rest| && s[|a|] == separator
            && s[..|a|] == a && s[|a| + 1..] == rest
  {
  }

  /** Cutting at a separator and joining again. */
  lemma Rejoin(s: Bytes, from: nat, to: nat)
    requires from <= to < |s|
    ensures After(s[from..to], s[to], s[to + 1..]) == s[from..]
  {
  }

  lemma AfterIsSpaced(a: Bytes, separator: Byte, rest: Bytes)
    requires Spaced(a) && Spaced(rest) && IsSeparator(separator) && rest != [] && IsLetter(rest[0])
    ensures Spaced(After(a, separator, rest))
  {
    var s := After(a, separator, rest);
    forall i | 0 <= i < |s| ensures SpacedAt(s, i) {
      if i < |a| {
        assert SpacedAt(a, i) && s[i] == a[i];
      } else if i > |a| {
        assert SpacedAt(rest, i - |a| - 1) && s[i] == rest[i - |a| - 1];
      }
    }
  }

  /** What stands between two separators of a spaced string is an identifier if it starts with a
      letter and is not too long. */
  lemma PieceIsId(s: Bytes, from: nat, to: nat)
    requires Spaced(s) && from < |s| && from <= to <= |s| && IsLetter(s[from]) && to - from <= 128
    requires to == |s| || IsSeparator(s[to])
    ensures MachineId(s[from..to])
  {
    var piece := s[from..to];
    assert from < to;
    forall i | 0 <= i < |piece| ensures SpacedAt(piece, i) {
      assert SpacedAt(s, from + i) && piece[i] == s[from + i];
    }
  }

  /** An inner separator that a name could begin behind. */
  predicate CanBreak(m: Bytes, separator: Byte, p: int) {
    0 <= p && p + 1 < |m| && m[p] == separator && IsLetter(m[p + 1])
  }

  predicate Breaks(m: Bytes, separator: Byte) {
    exists p :: 0 <= p < |m| && CanBreak(m, separator, p)
  }

  // ----- two names and a colon -----

  datatype Actor = Actor(kind: Bytes, name: Bytes)

  predicate IsActor(a: Actor) {
    MachineId(a.kind) && MachineId(a.name)
  }

  function AccessKey(a: Actor): Bytes {
    After(a.kind, COLON, a.name)
  }

  function ActorAt(s: Bytes, i: nat): Actor
    requires i < |s|
  {
    Actor(s[..i], s[i + 1..])
  }

  /** A colon of the key with an identifier on either side. */
  predicate IsActorReading(s: Bytes, i: nat) {
    i < |s| && s[i] == COLON && IsActor(ActorAt(s, i))
  }

  predicate HasOneActor(a: Actor) {
    forall i :: 0 <= i < |AccessKey(a)| && IsActorReading(AccessKey(a), i) ==> i == |a.kind|
  }

  lemma ActorIsRead(a: Actor)
    ensures |a.kind| < |AccessKey(a)|
    ensures AccessKey(a)[|a.kind|] == COLON && ActorAt(AccessKey(a), |a.kind|) == a
  {
    AfterParts(a.kind, COLON, a.name);
  }

  lemma ReadingIsAnActor(s: Bytes, i: nat)
    requires i < |s| && s[i] == COLON
    ensures AccessKey(ActorAt(s, i)) == s
  {
    Rejoin(s, 0, i);
  }

  /** An actor shares its access with nobody exactly when no other colon of the joined key can be
      taken for the one that joins it. */
  lemma AccessIsOwnExactly(a: Actor)
    requires IsActor(a)
    ensures (forall b :: IsActor(b) && AccessKey(b) == AccessKey(a) ==> b == a) <==> HasOneActor(a)
  {
    hide MachineId, AccessKey, ActorAt;
    var s := AccessKey(a);
    ActorIsRead(a);
    if HasOneActor(a) {
      forall b | IsActor(b) && AccessKey(b) == s ensures b == a {
        ActorIsRead(b);
        assert IsActorReading(s, |b.kind|);
      }
    } else {
      var i :| 0 <= i < |s| && IsActorReading(s, i) && i != |a.kind|;
      ReadingIsAnActor(s, i);
      assert |ActorAt(s, i).kind| == i by {
        KindEndsAt(s, i);
      }
    }
  }

  lemma KindEndsAt(s: Bytes, i: nat)
    requires i < |s|
    ensures |ActorAt(s, i).kind| == i
  {
  }

  predicate HidesAnActor(a: Actor) {
    Breaks(a.kind, COLON) || Breaks(a.name, COLON)
  }

  /** It does so whenever no colon inside its names stands before a letter; for names that fit into
      one identifier together, only then. */
  lemma ColonsDecide(a: Actor)
    requires IsActor(a)
    ensures !HidesAnActor(a) ==> HasOneActor(a)
    ensures |a.kind| + |a.name| < 128 ==> (HasOneActor(a) <==> !HidesAnActor(a))
  {
    hide MachineId, Spaced, Breaks;
    var s, n := AccessKey(a), |a.kind|;
    KeyIsSpaced(a);
    forall i | 0 <= i < |s| && IsActorReading(s, i) && i != n ensures HidesAnActor(a) {
      StartsWithLetter(s[i + 1..]);
      ColonIsInside(a, i);
    }
    if HidesAnActor(a) && |a.kind| + |a.name| < 128 {
      var i := InnerColon(a);
      PieceIsId(s, 0, i);
      PieceIsId(s, i + 1, |s|);
      assert s[..i] == s[0..i] && s[i + 1..] == s[i + 1..|s|];
      assert IsActorReading(s, i);
    }
  }

  lemma StartsWithLetter(m: Bytes)
    requires MachineId(m)
    ensures m != [] && IsLetter(m[0])
  {
  }

  lemma KeyIsSpaced(a: Actor)
    requires IsActor(a)
    ensures Spaced(AccessKey(a)) && IsLetter(AccessKey(a)[0])
  {
    AfterIsSpaced(a.kind, COLON, a.name);
  }

  lemma BreakShows(m: Bytes, separator: Byte, p: int)
    requires CanBreak(m, separator, p)
    ensures Breaks(m, separator)
  {
  }

  lemma LastIsNoSeparator(m: Bytes)
    requires MachineId(m)
    ensures !IsSeparator(m[|m| - 1])
  {
    assert SpacedAt(m, |m| - 1);
  }

  lemma ColonIsInside(a: Actor, i: nat)
    requires IsActor(a) && i + 1 < |AccessKey(a)| && i != |a.kind|
    requires AccessKey(a)[i] == COLON && IsLetter(AccessKey(a)[i + 1])
    ensures HidesAnActor(a)
  {
    hide MachineId, Breaks;
    LastIsNoSeparator(a.kind);
    if i < |a.kind| {
      BreakShows(a.kind, COLON, i);
    } else {
      BreakShows(a.name, COLON, i - |a.kind| - 1);
    }
  }

  lemma InnerColon(a: Actor) returns (i: nat)
    requires HidesAnActor(a)
    ensures i + 1 < |AccessKey(a)| && i != |a.kind| && AccessKey(a)[i] == COLON && IsLetter(AccessKey(a)[i + 1])
  {
    if Breaks(a.kind, COLON) {
      i :| 0 <= i < |a.kind| && CanBreak(a.kind, COLON, i);
    } else {
      var p :| 0 <= p < |a.name| && CanBreak(a.name, COLON, p);
      i := |a.kind| + 1 + p;
      assert AccessKey(a)[i] == a.name[p] && AccessKey(a)[i + 1] == a.name[p + 1];
    }
  }

  /** Actors of one kind never share; the contest takes only the kind `school`. */
  lemma OneKindIsApart(a: Actor, b: Actor)
    requires a.kind == b.kind && AccessKey(a) == AccessKey(b)
    ensures a == b
  {
    assert AccessKey(a)[|a.kind| + 1..] == a.name && AccessKey(b)[|b.kind| + 1..] == b.name;
  }

  // ----- four names and three slashes -----

  /** Within one run: the scope of a producer, the two names of an actor, and the key. */
  datatype Bearer = Bearer(scope: Bytes, kind: Bytes, name: Bytes, key: Bytes)

  predicate IsBearer(b: Bearer) {
    MachineId(b.scope) && MachineId(b.kind) && MachineId(b.name) && MachineId(b.key)
  }

  function Tail(b: Bearer): Bytes {
    After(b.scope, SLASH, After(b.kind, SLASH, After(b.name, SLASH, b.key)))
  }

  /** Behind the run, which is written in hexadecimal digits and a constant of its own. */
  function Joined(run: Bytes, b: Bearer): Bytes {
    run + Tail(b)
  }

  type Cuts = (nat, nat, nat)

  /** Where the three slashes stand that join a bearer. */
  function CutsOf(b: Bearer): Cuts {
    var i := |b.scope|;
    var j := i + 1 + |b.kind|;
    (i, j, j + 1 + |b.name|)
  }

  predicate AreSlashes(s: Bytes, c: Cuts) {
    c.0 < c.1 < c.2 < |s| && s[c.0] == s[c.1] == s[c.2] == SLASH
  }

  function BearerAt(s: Bytes, c: Cuts): Bearer
    requires AreSlashes(s, c)
  {
    Bearer(s[..c.0], s[c.0 + 1..c.1], s[c.1 + 1..c.2], s[c.2 + 1..])
  }

  /** Three slashes of the joined names that leave four identifiers. */
  predicate IsReading(s: Bytes, c: Cuts) {
    AreSlashes(s, c) && IsBearer(BearerAt(s, c))
  }

  predicate HasOneReading(b: Bearer) {
    var s := Tail(b);
    forall i, j, k :: 0 <= i < j < k < |s| && IsReading(s, (i, j, k)) ==> (i, j, k) == CutsOf(b)
  }

  lemma BearerIsRead(b: Bearer)
    ensures AreSlashes(Tail(b), CutsOf(b)) && BearerAt(Tail(b), CutsOf(b)) == b
  {
    hide After;
    var (i, j, k) := CutsOf(b);
    var s, last := Tail(b), After(b.name, SLASH, b.key);
    AfterParts(b.scope, SLASH, After(b.kind, SLASH, last));
    PartsBehind(s, i + 1, b.kind, last);
    PartsBehind(s, j + 1, b.name, b.key);
  }

  lemma PartsBehind(s: Bytes, from: nat, a: Bytes, rest: Bytes)
    requires from <= |s| && s[from..] == After(a, SLASH, rest)
    ensures from + |a| < |s| && s[from..from + |a|] == a && s[from + |a|] == SLASH && s[from + |a| + 1..] == rest
  {
    var tail, n := s[from..], |a|;
    AfterParts(a, SLASH, rest);
    assert s[from + n] == tail[n];
    assert s[from..from + n] == tail[..n];
    assert s[from + n + 1..] == tail[n + 1..];
  }

  lemma ReadingIsABearer(s: Bytes, c: Cuts)
    requires AreSlashes(s, c)
    ensures Tail(BearerAt(s, c)) == s && CutsOf(BearerAt(s, c)) == c
  {
    hide After;
    Rejoin(s, c.1 + 1, c.2);
    Rejoin(s, c.0 + 1, c.1);
    Rejoin(s, 0, c.0);
    assert s[0..c.0] == s[..c.0] && s[0..] == s;
  }

  lemma JoinedAlike(run: Bytes, a: Bearer, b: Bearer)
    ensures Joined(run, a) == Joined(run, b) <==> Tail(a) == Tail(b)
  {
    assert Joined(run, a)[|run|..] == Tail(a) && Joined(run, b)[|run|..] == Tail(b);
  }

  /** A bearer has its namespace to itself exactly when no other three slashes of the joined names
      can be taken for those that join them. */
  lemma NamespaceIsOwnExactly(run: Bytes, b: Bearer)
    requires IsBearer(b)
    ensures (forall b' :: IsBearer(b') && Joined(run, b') == Joined(run, b) ==> b' == b) <==> HasOneReading(b)
  {
    hide IsBearer, Tail, BearerAt, AreSlashes, Joined;
    var s := Tail(b);
    if HasOneReading(b) {
      forall b' | IsBearer(b') && Joined(run, b') == Joined(run, b) ensures b' == b {
        JoinedAlike(run, b', b);
        BearerIsRead(b');
        BearerIsRead(b);
        assert IsReading(s, CutsOf(b'));
        OnlyReading(b, CutsOf(b'));
      }
    } else {
      var c := OtherReading(b);
      ReadingIsABearer(s, c);
      var b' := BearerAt(s, c);
      JoinedAlike(run, b', b);
      assert IsBearer(b') && Joined(run, b') == Joined(run, b) && b' != b;
    }
  }

  lemma OnlyReading(b: Bearer, c: Cuts)
    requires HasOneReading(b) && IsReading(Tail(b), c)
    ensures c == CutsOf(b)
  {
    hide IsBearer, Tail, BearerAt;
    var (i, j, k) := c;
    assert IsReading(Tail(b), (i, j, k));
  }

  lemma OtherReading(b: Bearer) returns (c: Cuts)
    requires !HasOneReading(b)
    ensures IsReading(Tail(b), c) && c != CutsOf(b)
  {
    hide IsReading, Tail, CutsOf;
    var s := Tail(b);
    var i, j, k :| 0 <= i < j < k < |s| && IsReading(s, (i, j, k)) && (i, j, k) != CutsOf(b);
    c := (i, j, k);
  }

  /** Some name could be broken at a slash inside it. */
  predicate HidesABearer(b: Bearer) {
    Breaks(b.scope, SLASH) || Breaks(b.kind, SLASH) || Breaks(b.name, SLASH) || Breaks(b.key, SLASH)
  }

  /** A namespace is its bearer's own whenever no slash inside the names stands before a letter, and
      so without slashes in them; for an actor's name and a key that fit into one identifier
      together, only then. */
  lemma SlashesDecide(b: Bearer)
    requires IsBearer(b)
    ensures !HidesABearer(b) ==> HasOneReading(b)
    ensures SLASH !in b.scope && SLASH !in b.kind && SLASH !in b.name && SLASH !in b.key ==> HasOneReading(b)
    ensures |b.name| + |b.key| < 128 ==> (HasOneReading(b) <==> !HidesABearer(b))
  {
    hide MachineId, Tail, Spaced, Breaks, BearerAt, CutsOf, IsReading;
    var s := Tail(b);
    forall i, j, k | 0 <= i < j < k < |s| && IsReading(s, (i, j, k)) && (i, j, k) != CutsOf(b) ensures HidesABearer(b) {
      OtherCutsBreak(b, (i, j, k));
    }
    forall m | m == b.scope || m == b.kind || m == b.name || m == b.key ensures SLASH !in m ==> !Breaks(m, SLASH) {
      NothingToBreak(m);
    }
    if HidesABearer(b) && |b.name| + |b.key| < 128 {
      var t := InnerSlash(b);
      var c := CutElsewhere(b, t);
      var (i, j, k) := c;
      assert 0 <= i < j < k < |s| && IsReading(s, (i, j, k)) && (i, j, k) != CutsOf(b);
    }
  }

  lemma NothingToBreak(m: Bytes)
    ensures SLASH !in m ==> !Breaks(m, SLASH)
  {
  }

  lemma TailIsSpaced(b: Bearer)
    requires IsBearer(b)
    ensures Spaced(Tail(b)) && IsLetter(Tail(b)[0])
  {
    hide Spaced;
    AfterIsSpaced(b.name, SLASH, b.key);
    AfterIsSpaced(b.kind, SLASH, After(b.name, SLASH, b.key));
    AfterIsSpaced(b.scope, SLASH, After(b.kind, SLASH, After(b.name, SLASH, b.key)));
  }

  predicate IsLettered(s: Bytes, t: int) {
    0 <= t && t + 1 < |s| && s[t] == SLASH && IsLetter(s[t + 1])
  }

  lemma ReadingIsLettered(s: Bytes, c: Cuts)
    requires IsReading(s, c)
    ensures IsLettered(s, c.0) && IsLettered(s, c.1) && IsLettered(s, c.2)
  {
    hide MachineId;
    var b := BearerAt(s, c);
    StartsWithLetter(b.kind);
    StartsWithLetter(b.name);
    StartsWithLetter(b.key);
    assert b.kind[0] == s[c.0 + 1] && b.name[0] == s[c.1 + 1] && b.key[0] == s[c.2 + 1];
  }

  /** A slash before a letter joins the names or stands inside one. */
  lemma LetteredIsInside(b: Bearer, t: nat)
    requires IsBearer(b) && IsLettered(Tail(b), t) && t != CutsOf(b).0 && t != CutsOf(b).1 && t != CutsOf(b).2
    ensures HidesABearer(b)
  {
    hide MachineId, Breaks, Tail;
    var (i, j, k) := CutsOf(b);
    var s := Tail(b);
    BearerIsRead(b);
    LastIsNoSeparator(b.scope);
    LastIsNoSeparator(b.kind);
    LastIsNoSeparator(b.name);
    if t < i {
      InPiece(s, 0, i, t);
      BreakShows(b.scope, SLASH, t);
    } else if t < j {
      InPiece(s, i + 1, j, t);
      BreakShows(b.kind, SLASH, t - i - 1);
    } else if t < k {
      InPiece(s, j + 1, k, t);
      BreakShows(b.name, SLASH, t - j - 1);
    } else {
      InPiece(s, k + 1, |s|, t);
      BreakShows(b.key, SLASH, t - k - 1);
    }
  }

  lemma InPiece(s: Bytes, from: nat, to: nat, t: nat)
    requires from <= t < to <= |s| && IsLettered(s, t)
    ensures s[from..to][t - from] == SLASH
    ensures t + 1 == to || CanBreak(s[from..to], SLASH, t - from)
  {
  }

  lemma OtherCutsBreak(b: Bearer, c: Cuts)
    requires IsBearer(b) && IsReading(Tail(b), c) && c != CutsOf(b)
    ensures HidesABearer(b)
  {
    hide IsBearer, Tail, BearerAt, HidesABearer, IsLettered, CutsOf;
    var s, own := Tail(b), CutsOf(b);
    BearerIsRead(b);
    ReadingIsLettered(s, c);
    var t := if c.0 != own.0 && c.0 != own.1 && c.0 != own.2 then c.0
             else if c.1 != own.0 && c.1 != own.1 && c.1 != own.2 then c.1 else c.2;
    LetteredIsInside(b, t);
  }

  /** Where a slash inside a name stands in the joined names. */
  lemma InnerSlash(b: Bearer) returns (t: nat)
    requires HidesABearer(b)
    ensures IsLettered(Tail(b), t) && t != CutsOf(b).0 && t != CutsOf(b).1 && t != CutsOf(b).2
  {
    hide Tail;
    var (i, j, k) := CutsOf(b);
    hide Breaks, CanBreak, IsLettered;
    var s := Tail(b);
    BearerIsRead(b);
    if Breaks(b.scope, SLASH) {
      t := BreakOf(s, 0, i);
    } else if Breaks(b.kind, SLASH) {
      t := BreakOf(s, i + 1, j);
    } else if Breaks(b.name, SLASH) {
      t := BreakOf(s, j + 1, k);
    } else {
      assert s[k + 1..|s|] == b.key;
      t := BreakOf(s, k + 1, |s|);
    }
  }

  lemma BreakOf(s: Bytes, from: nat, to: nat) returns (t: nat)
    requires from <= to <= |s| && Breaks(s[from..to], SLASH)
    ensures from <= t < to && IsLettered(s, t)
  {
    var p :| 0 <= p < to - from && CanBreak(s[from..to], SLASH, p);
    FromPiece(s, from, to, p);
    t := from + p;
  }

  lemma FromPiece(s: Bytes, from: nat, to: nat, p: nat)
    requires from <= to <= |s| && CanBreak(s[from..to], SLASH, p)
    ensures from + p + 1 < to && IsLettered(s, from + p)
  {
  }

  /** Cutting at a slash inside a name, and no more between the actor's name and the key. */
  lemma CutElsewhere(b: Bearer, t: nat) returns (c: Cuts)
    requires IsBearer(b) && |b.name| + |b.key| < 128
    requires IsLettered(Tail(b), t) && t != CutsOf(b).0 && t != CutsOf(b).1 && t != CutsOf(b).2
    ensures c.0 < c.1 < c.2 < |Tail(b)|
    ensures IsReading(Tail(b), c) && c != CutsOf(b)
  {
    hide Spaced, MachineId, Tail, IsReading, BearerAt;
    var (i, j, k) := CutsOf(b);
    var s := Tail(b);
    BearerIsRead(b);
    TailIsSpaced(b);
    LengthsFit(b);
    OwnIsLettered(b);
    c := if t < i then (t, i, j) else if t < j then (i, t, j) else (i, j, t);
    LetteredIsReading(s, c);
  }

  lemma OwnIsLettered(b: Bearer)
    requires IsBearer(b)
    ensures var c := CutsOf(b); IsLettered(Tail(b), c.0) && IsLettered(Tail(b), c.1) && IsLettered(Tail(b), c.2)
  {
    hide MachineId, Tail, CutsOf;
    BearerIsRead(b);
    ReadingIsLettered(Tail(b), CutsOf(b));
  }

  lemma LengthsFit(b: Bearer)
    requires IsBearer(b)
    ensures |Tail(b)| == CutsOf(b).2 + 1 + |b.key|
    ensures |b.scope| <= 128 && |b.kind| <= 128
  {
  }

  lemma LetteredIsReading(s: Bytes, c: Cuts)
    requires Spaced(s) && s != [] && IsLetter(s[0]) && c.0 < c.1 < c.2
    requires IsLettered(s, c.0) && IsLettered(s, c.1) && IsLettered(s, c.2)
    requires c.0 <= 128 && c.1 - c.0 <= 129 && c.2 - c.1 <= 129 && |s| - c.2 <= 129
    ensures IsReading(s, c)
  {
    hide MachineId, Spaced;
    PieceIsId(s, 0, c.0);
    PieceIsId(s, c.0 + 1, c.1);
    PieceIsId(s, c.1 + 1, c.2);
    PieceIsId(s, c.2 + 1, |s|);
    assert s[0..c.0] == s[..c.0] && s[c.2 + 1..|s|] == s[c.2 + 1..];
  }

  // ----- who shares, and what comes of it -----

  function Word(b: Byte): Bytes {
    [b]
  }

  function Words(a: Byte, b: Byte): Bytes {
    [a, SLASH, b]
  }

  lemma LettersAreIds(x: Byte, y: Byte)
    requires IsLetter(x) && IsLetter(y)
    ensures MachineId(Word(x)) && MachineId(Words(x, y)) && MachineId([x, COLON, y])
  {
    assert IsAlphanumeric(x) && IsAlphanumeric(y);
    assert Words(x, y)[1] == SLASH && Words(x, y)[2] == y && [x, COLON, y][1] == COLON && [x, COLON, y][2] == y;
  }

  /** Different bearers of one namespace, by a slash in an actor's name or scope and by one in a key;
      and different actors of one access key. All the names are machine identifiers. */
  lemma KeysCollide(run: Bytes)
    ensures var a, b := Bearer(Words(0x73, 0x6b), Word(0x6e), Word(0x69), Word(0x69)),
                        Bearer(Word(0x73), Words(0x6b, 0x6e), Word(0x69), Word(0x69));
            IsBearer(a) && IsBearer(b) && a != b && Joined(run, a) == Joined(run, b)
    ensures var a, b := Bearer(Word(0x73), Word(0x6b), Word(0x6e), Words(0x69, 0x6a)),
                        Bearer(Word(0x73), Word(0x6b), Words(0x6e, 0x69), Word(0x6a));
            IsBearer(a) && IsBearer(b) && a != b && Joined(run, a) == Joined(run, b)
    ensures var a, b := Actor([0x6b, COLON, 0x6e], Word(0x69)), Actor(Word(0x6b), [0x6e, COLON, 0x69]);
            IsActor(a) && IsActor(b) && a != b && AccessKey(a) == AccessKey(b)
  {
    hide MachineId;
    LettersAreIds(0x73, 0x6b);
    LettersAreIds(0x6b, 0x6e);
    LettersAreIds(0x6e, 0x69);
    LettersAreIds(0x69, 0x6a);
    LettersAreIds(0x6a, 0x6a);
    var i, j := Word(0x69), Word(0x6a);
    assert Tail(Bearer(Words(0x73, 0x6b), Word(0x6e), i, i)) == [0x73, SLASH, 0x6b, SLASH, 0x6e, SLASH, 0x69, SLASH, 0x69];
    assert Tail(Bearer(Word(0x73), Words(0x6b, 0x6e), i, i)) == [0x73, SLASH, 0x6b, SLASH, 0x6e, SLASH, 0x69, SLASH, 0x69];
    assert Tail(Bearer(Word(0x73), Word(0x6b), Word(0x6e), Words(0x69, 0x6a)))
        == [0x73, SLASH, 0x6b, SLASH, 0x6e, SLASH, 0x69, SLASH, 0x6a];
    assert Tail(Bearer(Word(0x73), Word(0x6b), Words(0x6e, 0x69), j)) == [0x73, SLASH, 0x6b, SLASH, 0x6e, SLASH, 0x69, SLASH, 0x6a];
    assert AccessKey(Actor([0x6b, COLON, 0x6e], i)) == [0x6b, COLON, 0x6e, COLON, 0x69];
    assert AccessKey(Actor(Word(0x6b), [0x6e, COLON, 0x69])) == [0x6b, COLON, 0x6e, COLON, 0x69];
    assert |Words(0x73, 0x6b)| != |Word(0x73)| && |Words(0x69, 0x6a)| != |j|;
  }

  /** What the logical digest of a keyed request covers: the names separately, what is asked for,
      and the policy. */
  datatype Preimage = Preimage(run: Bytes, scope: Bytes, kind: Bytes, name: Bytes, key: Bytes, operation: Bytes, policy: Bytes)

  function KeyOf(run: Bytes, b: Bearer, operation: Bytes, policy: Bytes, digest: Preimage -> Bytes): KeyField {
    Keyed(Joined(run, b), digest(Preimage(run, b.scope, b.kind, b.name, b.key, operation, policy)))
  }

  ghost predicate IsCollisionFree(digest: Preimage -> Bytes) {
    forall x, y :: digest(x) == digest(y) ==> x == y
  }

  predicate Bears(u: Unit, key: KeyField) {
    u.form.Consume? && u.form.key == key
  }

  /** Once a key is bound, its digest stays: whoever comes with the same namespace has the same. */
  lemma {:induction false} SharersAgree(units: seq<Unit>, known: Bindings, u: Unit)
    requires AliasesOf(units, known).Ok? && u in units && u.form.Consume? && u.form.key.Keyed?
    ensures var after := AliasesOf(units, known).value.known;
            u.form.key.namespace in after && after[u.form.key.namespace].logical == u.form.key.logical
  {
    var init, last := units[..|units| - 1], units[|units| - 1];
    assert units == init + [last];
    if u in init {
      SharersAgree(init, known, u);
    }
  }

  predicate HasGoodKey(u: Unit) {
    u.form.Consume? ==> !u.form.key.BadKey?
  }

  lemma {:induction false} OnlyConflicts(units: seq<Unit>, known: Bindings)
    requires forall u :: u in units ==> HasGoodKey(u)
    ensures AliasesOf(units, known).Err? ==> AliasesOf(units, known).error == IdempotencyConflict
  {
    if units != [] {
      assert units[|units| - 1] in units;
      OnlyConflicts(units[..|units| - 1], known);
    }
  }

  /** If two different bearers of one namespace come before one fence, whatever they ask for, the
      whole request fails as a conflicting repetition. */
  lemma SharersAreRefused(req: Request, run: Bytes, a: Bearer, b: Bearer, operation: Bytes, operation': Bytes, policy: Bytes,
                          digest: Preimage -> Bytes, u: Unit, v: Unit)
    requires IsCollisionFree(digest) && a != b && Joined(run, a) == Joined(run, b)
    requires u in req.units && Bears(u, KeyOf(run, a, operation, policy, digest))
    requires v in req.units && Bears(v, KeyOf(run, b, operation', policy, digest))
    ensures Failure(req).Some?
    ensures WellFormed(req) && Historical(req.history).Ok? && (forall w :: w in req.units ==> HasGoodKey(w)) ==>
              Failure(req) == Some(IdempotencyConflict)
  {
    hide Historical, AliasesOf, UnitIsGood, MachineId, DistinctBy, Joined, HasGoodKey, Unsettled, Standings;
    DigestsDiffer(run, a, b, operation, operation', policy, digest);
    if WellFormed(req) && Historical(req.history).Ok? {
      var known, units := Historical(req.history).value, Ordered(req.units, req.admitted);
      OrderedHasAll(req, u);
      OrderedHasAll(req, v);
      if AliasesOf(units, known).Ok? {
        SharersAgree(units, known, u);
        SharersAgree(units, known, v);
      } else if forall w :: w in req.units ==> HasGoodKey(w) {
        OnlyConflicts(units, known);
      }
    }
  }

  lemma DigestsDiffer(run: Bytes, a: Bearer, b: Bearer, operation: Bytes, operation': Bytes, policy: Bytes,
                      digest: Preimage -> Bytes)
    requires IsCollisionFree(digest) && a != b
    ensures KeyOf(run, a, operation, policy, digest).logical != KeyOf(run, b, operation', policy, digest).logical
  {
  }

  lemma OrderedHasAll(req: Request, u: Unit)
    requires WellFormed(req) && u in req.units
    ensures u in Ordered(req.units, req.admitted)
  {
    hide MachineId, UnitIsGood;
    var k :| 0 <= k < |req.admitted| && req.admitted[k] == u.id;
    var found := Find(req.units, u.id).value;
    var i :| 0 <= i < |req.units| && req.units[i] == u;
    var j :| 0 <= j < |req.units| && req.units[j] == found;
    assert UnitId(req.units[i]) == UnitId(req.units[j]);
    assert Ordered(req.units, req.admitted)[k] == u;
  }
}

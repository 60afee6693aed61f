/** The resource kernel: from the responses admitted by a fence to a verdict on each. The conflict
    detector and plain addition are both consulted; they are proved to agree. */
module Resolver {
  import opened Bytes
  import opened Domain
  import opened Sorting
  import opened Claims

  // ----- what the kernel is given -----

  /** The optional idempotency key of a proposal, with the digest of what it asks for. */
  datatype KeyField = NoKey | BadKey | Keyed(namespace: Bytes, logical: Bytes)

  /** What a response says: nothing, an action no handler knows, or a claim on the resource. */
  datatype Form = Silent | Unregistered | Consume(amount: Amount, key: KeyField)

  /** `authentic` stands for the checks of a response's identity, digest, bytes and fixed fields;
      `actor` is the key made of the actor's two names. */
  datatype Unit = Unit(id: Bytes, actor: Bytes, authentic: bool, form: Form)

  datatype Binding = Binding(namespace: Bytes, logical: Bytes, canonical: Bytes)

  /** An actor missing from a map is unknown, not refused. What `institution` says is recorded in
      the assessments but decides nothing. */
  datatype Snapshot = Snapshot(kind: Bytes, resource: Bytes, available: I64, known: bool,
                               access: map<Bytes, bool>, institution: map<Bytes, bool>)

  datatype Request = Request(units: seq<Unit>, admitted: seq<Bytes>, snapshot: Snapshot, history: seq<Binding>)

  datatype Refusal = BadProvenance | IdempotencyConflict | IndeterminateFacet

  /** What the kernel says about one admitted unit. */
  datatype Verdict = NoProposal | Deduplicated(canonical: Bytes) | AccessDenied | Insufficient | Allocated | Outdrawn

  datatype Disposition = Disposition(subject: Bytes, verdict: Verdict)

  datatype Resolution = Resolution(dispositions: seq<Disposition>, left: int)

  /** The invariant every resource candidate declares: `resource.nonnegative`. */
  const NONNEGATIVE: Bytes := [0x72, 0x65, 0x73, 0x6f, 0x75, 0x72, 0x63, 0x65, 0x2e,
                               0x6e, 0x6f, 0x6e, 0x6e, 0x65, 0x67, 0x61, 0x74, 0x69, 0x76, 0x65]

  // ----- the units, in fence order -----

  function UnitId(u: Unit): Bytes {
    u.id
  }

  function Itself(id: Bytes): Bytes {
    id
  }

  predicate UnitIsGood(u: Unit) {
    u.authentic && (u.form.Consume? ==> PositiveAmount(u.form.amount).Some?)
  }

  function Find(units: seq<Unit>, id: Bytes): (r: Option<Unit>)
    ensures r.Some? ==> r.value in units && r.value.id == id
    ensures r == None ==> forall u :: u in units ==> u.id != id
  {
    if units == [] then None
    else
      var last := units[|units| - 1];
      assert units == units[..|units| - 1] + [last];
      if last.id == id then Some(last) else Find(units[..|units| - 1], id)
  }

  /** The responses delivered are those the fence admits, each once. */
  ghost predicate WellFormed(req: Request) {
    && req.snapshot.available >= 0
    && MachineId(req.snapshot.kind) && MachineId(req.snapshot.resource)
    && (forall u :: u in req.units ==> UnitIsGood(u))
    && DistinctBy(UnitId, req.units)
    && DistinctBy(Itself, req.admitted)
    && (forall id :: id in req.admitted ==> Find(req.units, id).Some?)
    && (forall u :: u in req.units ==> u.id in req.admitted)
  }

  function Ordered(units: seq<Unit>, admitted: seq<Bytes>): (r: seq<Unit>)
    requires forall id :: id in admitted ==> Find(units, id).Some?
    ensures |r| == |admitted|
    ensures forall k :: 0 <= k < |r| ==> r[k] in units && r[k].id == admitted[k]
  {
    seq(|admitted|, k requires 0 <= k < |admitted| => Find(units, admitted[k]).value)
  }

  // ----- repeated requests -----

  type Bindings = map<Bytes, Binding>

  predicate IsZero(id: Bytes) {
    |id| == 32 && forall b :: b in id ==> b == 0
  }

  function Historical(history: seq<Binding>): Result<Bindings, Refusal> {
    if history == [] then Ok(map[])
    else
      match Historical(history[..|history| - 1])
      case Err(e) => Err(e)
      case Ok(known) =>
        var h := history[|history| - 1];
        if h.namespace == [] || IsZero(h.canonical) then Err(BadProvenance)
        else if h.namespace in known && (known[h.namespace].canonical != h.canonical || known[h.namespace].logical != h.logical)
        then Err(IdempotencyConflict)
        else Ok(known[h.namespace := h])
  }

  /** For each unit, the unit it repeats if there is one; and everything bound by then. */
  datatype Aliases = Aliases(known: Bindings, canonical: seq<Option<Bytes>>)

  function AliasesOf(units: seq<Unit>, known: Bindings): (r: Result<Aliases, Refusal>)
    ensures r.Ok? ==> |r.value.canonical| == |units|
  {
    if units == [] then Ok(Aliases(known, []))
    else
      match AliasesOf(units[..|units| - 1], known)
      case Err(e) => Err(e)
      case Ok(a) =>
        var u := units[|units| - 1];
        if !u.form.Consume? || u.form.key.NoKey? then Ok(Aliases(a.known, a.canonical + [None]))
        else if u.form.key.BadKey? then Err(BadProvenance)
        else
          var namespace, logical := u.form.key.namespace, u.form.key.logical;
          if namespace !in a.known then
            Ok(Aliases(a.known[namespace := Binding(namespace, logical, u.id)], a.canonical + [None]))
          else if a.known[namespace].logical != logical then Err(IdempotencyConflict)
          else Ok(Aliases(a.known, a.canonical + [Some(a.known[namespace].canonical)]))
  }

  // ----- where a unit stands before allocation -----

  type Quantity = n: int | 0 < n <= MAX_I64 witness 1

  datatype Standing = Declined | Repeated(canonical: Bytes) | Unknown | Denied | TooMuch | Viable(amount: Quantity)

  datatype Prepared = Prepared(id: Bytes, standing: Standing)

  function StandingOf(s: Snapshot, u: Unit, alias: Option<Bytes>): Standing
    requires UnitIsGood(u)
  {
    match u.form
    case Silent => Declined
    case Unregistered => Unknown
    case Consume(amount, _) =>
      if alias.Some? then Repeated(alias.value)
      else if !s.known || u.actor !in s.access || u.actor !in s.institution then Unknown
      else if !s.access[u.actor] then Denied
      else if PositiveAmount(amount).value > s.available then TooMuch
      else Viable(PositiveAmount(amount).value)
  }

  function Standings(s: Snapshot, units: seq<Unit>, aliases: seq<Option<Bytes>>): (r: seq<Prepared>)
    requires |aliases| == |units| && forall u :: u in units ==> UnitIsGood(u)
    ensures |r| == |units|
  {
    seq(|units|, k requires 0 <= k < |units| => Prepared(units[k].id, StandingOf(s, units[k], aliases[k])))
  }

  // ----- what is decided -----

  function Want(p: Prepared): nat {
    if p.standing.Viable? then p.standing.amount else 0
  }

  /** What the viable requests ask for together. */
  function Wanted(prepared: seq<Prepared>): nat {
    if prepared == [] then 0 else Wanted(prepared[..|prepared| - 1]) + Want(prepared[|prepared| - 1])
  }

  function CountViable(prepared: seq<Prepared>): nat {
    if prepared == [] then 0
    else CountViable(prepared[..|prepared| - 1]) + if prepared[|prepared| - 1].standing.Viable? then 1 else 0
  }

  /** Two requests that each want everything there is; the only contest the kernel settles. */
  predicate EvenMatch(s: Snapshot, prepared: seq<Prepared>) {
    && CountViable(prepared) == 2
    && (forall p :: p in prepared && p.standing.Viable? ==> p.standing.amount == s.available)
    && Wanted(prepared) <= MAX_I64
  }

  predicate Unsettled(s: Snapshot, prepared: seq<Prepared>) {
    || (exists p :: p in prepared && p.standing == Unknown)
    || (Wanted(prepared) > s.available && !EvenMatch(s, prepared))
  }

  /** Everything that can go wrong, in the order in which it is noticed. */
  ghost function Failure(req: Request): Option<Refusal> {
    if !WellFormed(req) then Some(BadProvenance)
    else
      match Historical(req.history)
      case Err(e) => Some(e)
      case Ok(known) =>
        match AliasesOf(Ordered(req.units, req.admitted), known)
        case Err(e) => Some(e)
        case Ok(a) =>
          if Unsettled(req.snapshot, Standings(req.snapshot, Ordered(req.units, req.admitted), a.canonical))
          then Some(IndeterminateFacet) else None
  }

  ghost function PreparedOf(req: Request): seq<Prepared>
    requires Failure(req) == None
  {
    Standings(req.snapshot, Ordered(req.units, req.admitted),
              AliasesOf(Ordered(req.units, req.admitted), Historical(req.history).value).value.canonical)
  }

  /** Of two contenders the draw over their sorted candidate identities picks one. */
  predicate Wins(mine: Bytes, other: Bytes, draw: seq<Bytes> -> bool) {
    if Less(mine, other) then !draw([mine, other]) else draw([other, mine])
  }

  ghost predicate IsVerdict(s: Snapshot, prepared: seq<Prepared>, candidateOf: Bytes -> Bytes, draw: seq<Bytes> -> bool,
                            k: nat, v: Verdict)
    requires k < |prepared|
  {
    match prepared[k].standing
    case Declined => v == NoProposal
    case Repeated(canonical) => v == Deduplicated(canonical)
    case Unknown => false
    case Denied => v == AccessDenied
    case TooMuch => v == Insufficient
    case Viable(_) =>
      if Wanted(prepared) <= s.available then v == Allocated
      else
        forall j :: 0 <= j < |prepared| && j != k && prepared[j].standing.Viable? ==>
          v == if Wins(candidateOf(prepared[k].id), candidateOf(prepared[j].id), draw) then Allocated else Outdrawn
  }

  /** What the verdicts on the given units give away. */
  function Given(prepared: seq<Prepared>, dispositions: seq<Disposition>): nat
    requires |dispositions| == |prepared|
  {
    if prepared == [] then 0
    else
      var n := |prepared| - 1;
      Given(prepared[..n], dispositions[..n]) + if dispositions[n].verdict == Allocated then Want(prepared[n]) else 0
  }

  ghost predicate IsResolution(s: Snapshot, prepared: seq<Prepared>, candidateOf: Bytes -> Bytes, draw: seq<Bytes> -> bool,
                               r: Resolution) {
    && |r.dispositions| == |prepared|
    && (forall k :: 0 <= k < |prepared| ==>
          r.dispositions[k].subject == prepared[k].id && IsVerdict(s, prepared, candidateOf, draw, k, r.dispositions[k].verdict))
    && r.left == s.available - Given(prepared, r.dispositions)
  }

  // ----- the kernel's loops: collecting -----

  type ById = map<Bytes, Unit>

  /** Validates the delivered responses and puts them into the order of the fence. */
  method Collect(req: Request) returns (ordered: Option<seq<Unit>>)
    ensures ordered.Some? <==> WellFormed(req)
    ensures ordered.Some? ==> ordered.value == Ordered(req.units, req.admitted)
  {
    hide DistinctBy, MachineId, UnitIsGood;
    if req.snapshot.available < 0 || !MachineId(req.snapshot.kind) || !MachineId(req.snapshot.resource) {
      return None;
    }
    var byId := IndexUnits(req.units);
    if byId == None {
      return None;
    }
    ordered := Place(req.units, req.admitted, byId.value);
  }

  ghost predicate Indexed(byId: ById, units: seq<Unit>) {
    forall id :: (id in byId <==> Find(units, id).Some?) && (id in byId ==> Find(units, id) == Some(byId[id]))
  }

  lemma FindOneMore(init: seq<Unit>, u: Unit)
    ensures forall id :: Find(init + [u], id) == if u.id == id then Some(u) else Find(init, id)
    ensures Find(init, u.id).Some? <==> exists v :: v in init && UnitId(v) == UnitId(u)
  {
    assert (init + [u])[..|init|] == init;
  }

  method IndexUnits(units: seq<Unit>) returns (byId: Option<ById>)
    ensures byId.Some? <==> (forall u :: u in units ==> UnitIsGood(u)) && DistinctBy(UnitId, units)
    ensures byId.Some? ==> Indexed(byId.value, units) && |byId.value| == |units|
  {
    hide Find, UnitIsGood, DistinctBy, Indexed;
    var index: ById := map[];
    assert units[..0] == [];
    NothingRepeats();
    for i := 0 to |units|
      invariant forall u :: u in units[..i] ==> UnitIsGood(u)
      invariant DistinctBy(UnitId, units[..i])
      invariant Indexed(index, units[..i]) && |index| == i
    {
      var u := units[i];
      assert units[..i + 1] == units[..i] + [u] && u in units;
      DistinctOneMore(UnitId, units[..i], u);
      DistinctPrefix(UnitId, units, i + 1);
      IndexedOneMore(index, units[..i], u);
      if !UnitIsGood(u) || u.id in index {
        return None;
      }
      index := index[u.id := u];
    }
    assert units[..|units|] == units;
    return Some(index);
  }

  lemma IndexedOneMore(index: ById, init: seq<Unit>, u: Unit)
    requires Indexed(index, init)
    ensures Indexed(index[u.id := u], init + [u])
    ensures u.id in index <==> exists v :: v in init && UnitId(v) == UnitId(u)
  {
    hide Find;
    FindOneMore(init, u);
  }

  /** Looks every admitted identity up once, and checks that nothing is left over. */
  method Place(units: seq<Unit>, admitted: seq<Bytes>, byId: ById) returns (ordered: Option<seq<Unit>>)
    requires Indexed(byId, units) && |byId| == |units| && DistinctBy(UnitId, units)
    ensures ordered.Some? <==>
            && DistinctBy(Itself, admitted)
            && (forall id :: id in admitted ==> Find(units, id).Some?)
            && (forall u :: u in units ==> u.id in admitted)
    ensures ordered.Some? ==> ordered.value == Ordered(units, admitted)
  {
    hide Find, DistinctBy;
    var placed: seq<Unit>, seen: set<Bytes> := [], {};
    assert admitted[..0] == [];
    NothingRepeats();
    for i := 0 to |admitted|
      invariant DistinctBy(Itself, admitted[..i])
      invariant forall id :: id in seen <==> id in admitted[..i]
      invariant |seen| == i
      invariant forall id :: id in admitted[..i] ==> Find(units, id).Some?
      invariant placed == Ordered(units, admitted[..i])
    {
      var id := admitted[i];
      assert admitted[..i + 1] == admitted[..i] + [id];
      DistinctOneMore(Itself, admitted[..i], id);
      if id in seen {
        assert id in admitted[..i] && Itself(id) == Itself(id);
        DistinctPrefix(Itself, admitted, i + 1);
        return None;
      }
      if id !in byId {
        assert id in admitted;
        return None;
      }
      seen := seen + {id};
      placed := placed + [byId[id]];
    }
    assert admitted[..|admitted|] == admitted;
    NothingIsLeftOver(units, byId, seen);
    if |placed| != |byId| {
      return None;
    }
    return Some(placed);
  }

  lemma NothingRepeats()
    ensures DistinctBy(Itself, []) && DistinctBy(UnitId, []) && Indexed(map[], [])
  {
  }

  lemma NothingIsLeftOver(units: seq<Unit>, byId: ById, seen: set<Bytes>)
    requires Indexed(byId, units) && forall id :: id in seen ==> Find(units, id).Some?
    ensures |seen| == |byId| <==> forall u :: u in units ==> u.id in seen
  {
    assert seen <= byId.Keys;
    if |seen| == |byId| {
      assert |byId| == |byId.Keys|;
      SameSizeSubset(seen, byId.Keys);
      forall u | u in units ensures u.id in seen {
        assert Find(units, u.id).Some?;
      }
    }
    if forall u :: u in units ==> u.id in seen {
      forall id | id in byId ensures id in seen {
        assert Find(units, id).value in units;
      }
      assert byId.Keys == seen;
      assert |byId| == |byId.Keys|;
    }
  }

  // ----- the kernel's loops: repeated requests -----

  method BindHistory(history: seq<Binding>) returns (r: Result<Bindings, Refusal>)
    ensures r == Historical(history)
  {
    var known: Bindings := map[];
    for i := 0 to |history|
      invariant Historical(history[..i]) == Ok(known)
    {
      var h := history[i];
      assert history[..i + 1][..i] == history[..i];
      HistoryFailsEarly(history, i + 1);
      if h.namespace == [] || IsZero(h.canonical) {
        return Err(BadProvenance);
      }
      if h.namespace in known && (known[h.namespace].canonical != h.canonical || known[h.namespace].logical != h.logical) {
        return Err(IdempotencyConflict);
      }
      known := known[h.namespace := h];
    }
    assert history[..|history|] == history;
    return Ok(known);
  }

  lemma {:induction false} HistoryFailsEarly(history: seq<Binding>, n: nat)
    requires n <= |history|
    ensures Historical(history[..n]).Err? ==> Historical(history) == Historical(history[..n])
  {
    if n < |history| {
      HistoryFailsEarly(history[..|history| - 1], n);
      assert history[..|history| - 1][..n] == history[..n];
    } else {
      assert history[..n] == history;
    }
  }

  method ResolveAliases(units: seq<Unit>, history: Bindings) returns (r: Result<seq<Option<Bytes>>, Refusal>)
    ensures r.Err? <==> AliasesOf(units, history).Err?
    ensures r.Err? ==> AliasesOf(units, history) == Err(r.error)
    ensures r.Ok? ==> r.value == AliasesOf(units, history).value.canonical
  {
    var known, canonical: seq<Option<Bytes>> := history, [];
    for i := 0 to |units|
      invariant AliasesOf(units[..i], history) == Ok(Aliases(known, canonical))
    {
      var u := units[i];
      assert units[..i + 1][..i] == units[..i];
      AliasesFailEarly(units, history, i + 1);
      if u.form.Consume? && !u.form.key.NoKey? {
        if u.form.key.BadKey? {
          return Err(BadProvenance);
        }
        if u.form.key.namespace in known {
          if known[u.form.key.namespace].logical != u.form.key.logical {
            return Err(IdempotencyConflict);
          }
          canonical := canonical + [Some(known[u.form.key.namespace].canonical)];
        } else {
          known := known[u.form.key.namespace := Binding(u.form.key.namespace, u.form.key.logical, u.id)];
          canonical := canonical + [None];
        }
      } else {
        canonical := canonical + [None];
      }
    }
    assert units[..|units|] == units;
    return Ok(canonical);
  }

  lemma {:induction false} AliasesFailEarly(units: seq<Unit>, known: Bindings, n: nat)
    requires n <= |units|
    ensures AliasesOf(units[..n], known).Err? ==> AliasesOf(units, known) == AliasesOf(units[..n], known)
  {
    if n < |units| {
      AliasesFailEarly(units[..|units| - 1], known, n);
      assert units[..|units| - 1][..n] == units[..n];
    } else {
      assert units[..n] == units;
    }
  }
}

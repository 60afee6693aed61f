/** The resource kernel as a whole, and why its verdicts can be trusted: nothing is given away
    twice, nothing is lost, and the order of delivery does not matter. */
module Kernel {
  import opened Bytes
  import opened Domain
  import opened Sorting
  import opened Claims
  import opened Resolver
  import opened Allocation

  /** Candidate identities are hashes of their source. */
  ghost predicate OneToOne(candidateOf: Bytes -> Bytes) {
    forall a, b :: candidateOf(a) == candidateOf(b) ==> a == b
  }

  // ----- from standings to candidates -----

  function SubjectOf(p: Prepared): Bytes {
    p.id
  }

  ghost predicate Sound(s: Snapshot, prepared: seq<Prepared>) {
    && s.available >= 0 && MachineId(s.resource)
    && DistinctBy(SubjectOf, prepared)
    && forall p :: p in prepared && p.standing.Viable? ==> p.standing.amount <= s.available
  }

  lemma {:induction false} CandidateSources(s: Snapshot, prepared: seq<Prepared>, candidateOf: Bytes -> Bytes, c: Candidate)
    ensures c in Candidates(s, prepared, candidateOf) <==>
            exists p :: p in prepared && p.standing.Viable? && c == CandidateOf(s, candidateOf(p.id), p.standing.amount)
  {
    if prepared != [] {
      var init, last := prepared[..|prepared| - 1], prepared[|prepared| - 1];
      assert prepared == init + [last];
      CandidateSources(s, init, candidateOf, c);
    }
  }

  lemma {:induction false} CandidatesDiffer(s: Snapshot, prepared: seq<Prepared>, candidateOf: Bytes -> Bytes)
    requires OneToOne(candidateOf) && DistinctBy(SubjectOf, prepared)
    ensures DistinctBy(IdOf, Candidates(s, prepared, candidateOf))
  {
    hide DistinctBy, CandidateOf;
    if prepared == [] {
      NoCandidates();
    } else {
      var init, last := prepared[..|prepared| - 1], prepared[|prepared| - 1];
      assert prepared == init + [last];
      DistinctOneMore(SubjectOf, init, last);
      CandidatesDiffer(s, init, candidateOf);
      if last.standing.Viable? {
        var all, c := Candidates(s, init, candidateOf), CandidateOf(s, candidateOf(last.id), last.standing.amount);
        forall d | d in all ensures IdOf(d) != IdOf(c) {
          CandidateSources(s, init, candidateOf, d);
          var p :| p in init && p.standing.Viable? && d == CandidateOf(s, candidateOf(p.id), p.standing.amount);
          IdOfCandidate(s, candidateOf(p.id), p.standing.amount);
          IdOfCandidate(s, candidateOf(last.id), last.standing.amount);
          assert SubjectOf(p) != SubjectOf(last);
        }
        DistinctOneMore(IdOf, all, c);
      }
    }
  }

  lemma NoCandidates()
    ensures DistinctBy(IdOf, [])
  {
  }

  lemma IdOfCandidate(s: Snapshot, id: Bytes, q: Quantity)
    ensures IdOf(CandidateOf(s, id, q)) == id == CandidateOf(s, id, q).id
  {
  }

  lemma CandidatesContend(s: Snapshot, prepared: seq<Prepared>, candidateOf: Bytes -> Bytes)
    requires OneToOne(candidateOf) && Sound(s, prepared)
    ensures Contenders(s, Candidates(s, prepared, candidateOf))
  {
    hide MachineId, DistinctBy, CandidateOf, Candidates;
    CandidatesDiffer(s, prepared, candidateOf);
    forall c | c in Candidates(s, prepared, candidateOf)
      ensures exists q: Quantity :: q <= s.available && c == CandidateOf(s, c.id, q)
    {
      CandidateSources(s, prepared, candidateOf, c);
      var p :| p in prepared && p.standing.Viable? && c == CandidateOf(s, candidateOf(p.id), p.standing.amount);
      IdOfCandidate(s, candidateOf(p.id), p.standing.amount);
      var q: Quantity := p.standing.amount;
      assert q <= s.available && c == CandidateOf(s, c.id, q);
    }
  }

  lemma {:induction false} TotalIsWanted(s: Snapshot, prepared: seq<Prepared>, candidateOf: Bytes -> Bytes)
    ensures Total(Candidates(s, prepared, candidateOf), s.resource) == Wanted(prepared)
    ensures |Candidates(s, prepared, candidateOf)| == CountViable(prepared)
  {
    hide Claimed, CandidateOf;
    if prepared == [] {
      NothingIsWanted(s);
    } else {
      var init, last := prepared[..|prepared| - 1], prepared[|prepared| - 1];
      TotalIsWanted(s, init, candidateOf);
      if last.standing.Viable? {
        var all, c := Candidates(s, init, candidateOf), CandidateOf(s, candidateOf(last.id), last.standing.amount);
        IdOfCandidate(s, candidateOf(last.id), last.standing.amount);
        ClaimedByOne(s, c, last.standing.amount);
        assert (all + [c])[..|all|] == all;
      }
    }
  }

  lemma EvenIsEven(s: Snapshot, prepared: seq<Prepared>, candidateOf: Bytes -> Bytes)
    ensures EvenMatch(s, prepared) <==> IsEven(s, Candidates(s, prepared, candidateOf))
  {
    hide Total, Claimed, Candidates, Wanted, CountViable;
    TotalIsWanted(s, prepared, candidateOf);
    var all := Candidates(s, prepared, candidateOf);
    forall c ensures c in all <==>
      exists p :: p in prepared && p.standing.Viable? && c == CandidateOf(s, candidateOf(p.id), p.standing.amount)
    {
      CandidateSources(s, prepared, candidateOf, c);
    }
    forall p | p in prepared && p.standing.Viable?
      ensures var c := CandidateOf(s, candidateOf(p.id), p.standing.amount);
              c in all && |c.claims| == 1 && AmountOf(c) == p.standing.amount
    {
      var c := CandidateOf(s, candidateOf(p.id), p.standing.amount);
      ClaimedByOne(s, c, p.standing.amount);
    }
  }

  // ----- the kernel's loops: assessing and concluding -----

  /** Assesses each unit in fence order, and makes a candidate for each viable request. */
  method Assess(s: Snapshot, units: seq<Unit>, aliases: seq<Option<Bytes>>, candidateOf: Bytes -> Bytes)
    returns (unknown: bool, prepared: seq<Prepared>, candidates: seq<Candidate>)
    requires |aliases| == |units| && forall u :: u in units ==> UnitIsGood(u)
    ensures prepared == Standings(s, units, aliases)
    ensures unknown <==> exists p :: p in prepared && p.standing == Unknown
    ensures candidates == Candidates(s, prepared, candidateOf)
  {
    hide CandidateOf, UnitIsGood;
    unknown, prepared, candidates := false, [], [];
    for i := 0 to |units|
      invariant |prepared| == i
      invariant forall k :: 0 <= k < i ==> prepared[k] == Prepared(units[k].id, StandingOf(s, units[k], aliases[k]))
      invariant unknown <==> exists p :: p in prepared && p.standing == Unknown
      invariant candidates == Candidates(s, prepared, candidateOf)
    {
      var u := units[i];
      assert u in units;
      var standing := StandingOf(s, u, aliases[i]);
      var before := prepared;
      prepared := prepared + [Prepared(u.id, standing)];
      assert prepared[..i] == before;
      if standing.Viable? {
        candidates := candidates + [CandidateOf(s, candidateOf(u.id), standing.amount)];
      } else if standing == Unknown {
        unknown := true;
        assert prepared[i].standing == Unknown && prepared[i] in prepared;
      }
    }
  }

  function VerdictOf(p: Prepared, candidateOf: Bytes -> Bytes, winners: set<Bytes>): Verdict
    requires p.standing != Unknown
  {
    match p.standing
    case Declined => NoProposal
    case Repeated(canonical) => Deduplicated(canonical)
    case Denied => AccessDenied
    case TooMuch => Insufficient
    case Viable(_) => if candidateOf(p.id) in winners then Allocated else Outdrawn
  }

  function Dispositions(prepared: seq<Prepared>, candidateOf: Bytes -> Bytes, winners: set<Bytes>): (r: seq<Disposition>)
    requires forall p :: p in prepared ==> p.standing != Unknown
    ensures |r| == |prepared|
  {
    seq(|prepared|, k requires 0 <= k < |prepared| =>
      Disposition(prepared[k].id, VerdictOf(prepared[k], candidateOf, winners)))
  }

  /** Writes the dispositions and takes what is given from what there is. The two checks that the
      stock does not run out never fail. */
  method Conclude(s: Snapshot, prepared: seq<Prepared>, candidateOf: Bytes -> Bytes, winners: set<Bytes>) returns (r: Resolution)
    requires forall p :: p in prepared ==> p.standing != Unknown
    requires Given(prepared, Dispositions(prepared, candidateOf, winners)) <= s.available
    ensures r.dispositions == Dispositions(prepared, candidateOf, winners)
    ensures r.left == s.available - Given(prepared, r.dispositions)
  {
    var all := Dispositions(prepared, candidateOf, winners);
    var dispositions: seq<Disposition>, left: int := [], s.available;
    assert prepared[..0] == [] && all[..0] == [];
    for i := 0 to |prepared|
      invariant dispositions == all[..i]
      invariant left == s.available - Given(prepared[..i], all[..i])
    {
      assert prepared[..i + 1][..i] == prepared[..i] && all[..i + 1][..i] == all[..i];
      GivenGrows(prepared, all, i + 1);
      var verdict := VerdictOf(prepared[i], candidateOf, winners);
      if verdict == Allocated {
        if prepared[i].standing.amount > left {
          assert false;
        }
        left := left - prepared[i].standing.amount;
      }
      dispositions := dispositions + [Disposition(prepared[i].id, verdict)];
    }
    assert prepared[..|prepared|] == prepared && all[..|prepared|] == all;
    if left < 0 {
      assert false;
    }
    r := Resolution(dispositions, left);
  }

  lemma {:induction false} GivenGrows(prepared: seq<Prepared>, dispositions: seq<Disposition>, n: nat)
    requires n <= |prepared| == |dispositions|
    ensures Given(prepared[..n], dispositions[..n]) <= Given(prepared, dispositions)
  {
    if n < |prepared| {
      var m := |prepared| - 1;
      GivenGrows(prepared[..m], dispositions[..m], n);
      assert prepared[..m][..n] == prepared[..n] && dispositions[..m][..n] == dispositions[..n];
    } else {
      assert prepared[..n] == prepared && dispositions[..n] == dispositions;
    }
  }

  // ----- what is given away -----

  lemma {:induction false} GivenIsWanted(prepared: seq<Prepared>, dispositions: seq<Disposition>)
    requires |dispositions| == |prepared|
    ensures Given(prepared, dispositions) <= Wanted(prepared)
    ensures (forall k :: 0 <= k < |prepared| && prepared[k].standing.Viable? ==> dispositions[k].verdict == Allocated) ==>
              Given(prepared, dispositions) == Wanted(prepared)
  {
    if prepared != [] {
      var n := |prepared| - 1;
      GivenIsWanted(prepared[..n], dispositions[..n]);
    }
  }

  ghost predicate Gets(prepared: seq<Prepared>, dispositions: seq<Disposition>, k: nat)
    requires |dispositions| == |prepared| && k < |prepared|
  {
    prepared[k].standing.Viable? && dispositions[k].verdict == Allocated
  }

  lemma {:induction false} NoneGets(prepared: seq<Prepared>, dispositions: seq<Disposition>)
    requires |dispositions| == |prepared|
    requires forall k :: 0 <= k < |prepared| ==> !Gets(prepared, dispositions, k)
    ensures Given(prepared, dispositions) == 0
  {
    if prepared != [] {
      var n := |prepared| - 1;
      forall k | 0 <= k < n ensures !Gets(prepared[..n], dispositions[..n], k) {
        assert !Gets(prepared, dispositions, k);
      }
      NoneGets(prepared[..n], dispositions[..n]);
      assert !Gets(prepared, dispositions, n);
    }
  }

  lemma {:induction false} OnlyOneGets(prepared: seq<Prepared>, dispositions: seq<Disposition>, k: nat)
    requires |dispositions| == |prepared| && k < |prepared| && Gets(prepared, dispositions, k)
    requires forall j :: 0 <= j < |prepared| && j != k ==> !Gets(prepared, dispositions, j)
    ensures Given(prepared, dispositions) == prepared[k].standing.amount
  {
    var n := |prepared| - 1;
    forall j | 0 <= j < n && j != k ensures !Gets(prepared[..n], dispositions[..n], j) {
      assert !Gets(prepared, dispositions, j);
    }
    if k == n {
      NoneGets(prepared[..n], dispositions[..n]);
    } else {
      assert Gets(prepared[..n], dispositions[..n], k);
      OnlyOneGets(prepared[..n], dispositions[..n], k);
      assert !Gets(prepared, dispositions, n);
    }
  }

  lemma {:induction false} NoneViable(prepared: seq<Prepared>)
    requires CountViable(prepared) == 0
    ensures forall k :: 0 <= k < |prepared| ==> !prepared[k].standing.Viable?
  {
    if prepared != [] {
      NoneViable(prepared[..|prepared| - 1]);
      assert forall k :: 0 <= k < |prepared| - 1 ==> prepared[k] == prepared[..|prepared| - 1][k];
    }
  }

  lemma {:induction false} OneViable(prepared: seq<Prepared>) returns (i: nat)
    requires CountViable(prepared) == 1
    ensures i < |prepared| && prepared[i].standing.Viable?
    ensures forall k :: 0 <= k < |prepared| && prepared[k].standing.Viable? ==> k == i
  {
    var n := |prepared| - 1;
    assert forall k :: 0 <= k < n ==> prepared[k] == prepared[..n][k];
    if prepared[n].standing.Viable? {
      NoneViable(prepared[..n]);
      i := n;
    } else {
      i := OneViable(prepared[..n]);
    }
  }

  lemma {:induction false} TwoViable(prepared: seq<Prepared>) returns (i: nat, j: nat)
    requires CountViable(prepared) == 2
    ensures i < j < |prepared| && prepared[i].standing.Viable? && prepared[j].standing.Viable?
    ensures forall k :: 0 <= k < |prepared| && prepared[k].standing.Viable? ==> k == i || k == j
  {
    var n := |prepared| - 1;
    assert forall k :: 0 <= k < n ==> prepared[k] == prepared[..n][k];
    if prepared[n].standing.Viable? {
      i := OneViable(prepared[..n]);
      j := n;
    } else {
      i, j := TwoViable(prepared[..n]);
    }
  }

  lemma OneOfTwoWins(a: Bytes, b: Bytes, draw: seq<Bytes> -> bool)
    requires a != b
    ensures Wins(a, b, draw) <==> !Wins(b, a, draw)
  {
    LessTotal(a, b);
    if Less(a, b) && Less(b, a) {
      LessTransitive(a, b, a);
      LessIrreflexive(a);
    }
  }

  ghost predicate AllVerdicts(s: Snapshot, prepared: seq<Prepared>, candidateOf: Bytes -> Bytes, draw: seq<Bytes> -> bool,
                              dispositions: seq<Disposition>) {
    && |dispositions| == |prepared|
    && forall k :: 0 <= k < |prepared| ==>
         dispositions[k].subject == prepared[k].id && IsVerdict(s, prepared, candidateOf, draw, k, dispositions[k].verdict)
  }

  /** A contest has exactly one winner, and the winner gets everything. */
  lemma ContestHasOneWinner(s: Snapshot, prepared: seq<Prepared>, candidateOf: Bytes -> Bytes, draw: seq<Bytes> -> bool,
                            dispositions: seq<Disposition>) returns (winner: nat)
    requires OneToOne(candidateOf) && Sound(s, prepared) && AllVerdicts(s, prepared, candidateOf, draw, dispositions)
    requires Wanted(prepared) > s.available && EvenMatch(s, prepared)
    ensures winner < |prepared| && Gets(prepared, dispositions, winner)
    ensures forall k :: 0 <= k < |prepared| && k != winner ==> !Gets(prepared, dispositions, k)
    ensures Given(prepared, dispositions) == s.available
  {
    hide Wanted, MachineId, Wins, CountViable, Given;
    var i, j := TwoViable(prepared);
    assert prepared[i] in prepared && prepared[j] in prepared;
    assert SubjectOf(prepared[i]) != SubjectOf(prepared[j]);
    var a, b := candidateOf(prepared[i].id), candidateOf(prepared[j].id);
    OneOfTwoWins(a, b, draw);
    assert IsVerdict(s, prepared, candidateOf, draw, i, dispositions[i].verdict);
    assert IsVerdict(s, prepared, candidateOf, draw, j, dispositions[j].verdict);
    winner := if Wins(a, b, draw) then i else j;
    OnlyOneGets(prepared, dispositions, winner);
  }

  /** Nothing is given that is not there, and nothing disappears. */
  lemma GivenFits(s: Snapshot, prepared: seq<Prepared>, candidateOf: Bytes -> Bytes, draw: seq<Bytes> -> bool,
                  dispositions: seq<Disposition>)
    requires OneToOne(candidateOf) && Sound(s, prepared) && AllVerdicts(s, prepared, candidateOf, draw, dispositions)
    requires !Unsettled(s, prepared)
    ensures Given(prepared, dispositions) == if Wanted(prepared) <= s.available then Wanted(prepared) else s.available
  {
    hide Wanted, MachineId, Wins, EvenMatch, Given, DistinctBy;
    if Wanted(prepared) <= s.available {
      forall k | 0 <= k < |prepared| && prepared[k].standing.Viable? ensures dispositions[k].verdict == Allocated {
        assert IsVerdict(s, prepared, candidateOf, draw, k, dispositions[k].verdict);
      }
      GivenIsWanted(prepared, dispositions);
    } else {
      var winner := ContestHasOneWinner(s, prepared, candidateOf, draw, dispositions);
    }
  }

  lemma WinnersDecide(s: Snapshot, prepared: seq<Prepared>, candidateOf: Bytes -> Bytes, draw: seq<Bytes> -> bool, winners: set<Bytes>)
    requires OneToOne(candidateOf) && Sound(s, prepared) && forall p :: p in prepared ==> p.standing != Unknown
    requires IsWinnerSet(s, Candidates(s, prepared, candidateOf), draw, winners)
    ensures AllVerdicts(s, prepared, candidateOf, draw, Dispositions(prepared, candidateOf, winners))
  {
    hide Wanted, MachineId, Wins, Total, Candidates;
    TotalIsWanted(s, prepared, candidateOf);
    var all := Candidates(s, prepared, candidateOf);
    forall k | 0 <= k < |prepared| && prepared[k].standing.Viable?
      ensures CandidateOf(s, candidateOf(prepared[k].id), prepared[k].standing.amount) in all
    {
      assert prepared[k] in prepared;
      CandidateSources(s, prepared, candidateOf, CandidateOf(s, candidateOf(prepared[k].id), prepared[k].standing.amount));
    }
    forall j, k | 0 <= j < |prepared| && 0 <= k < |prepared| && j != k && prepared[j].standing.Viable? && prepared[k].standing.Viable?
      ensures Wanted(prepared) > s.available ==>
        (candidateOf(prepared[k].id) in winners <==> Wins(candidateOf(prepared[k].id), candidateOf(prepared[j].id), draw))
    {
      assert SubjectOf(prepared[j]) != SubjectOf(prepared[k]);
      var c := CandidateOf(s, candidateOf(prepared[k].id), prepared[k].standing.amount);
      var d := CandidateOf(s, candidateOf(prepared[j].id), prepared[j].standing.amount);
      assert c in all && d in all && c.id != d.id;
    }
  }

  lemma StandingsAreSound(s: Snapshot, units: seq<Unit>, aliases: seq<Option<Bytes>>)
    requires s.available >= 0 && MachineId(s.resource) && DistinctBy(UnitId, units)
    requires |aliases| == |units| && forall u :: u in units ==> UnitIsGood(u)
    ensures Sound(s, Standings(s, units, aliases))
  {
    hide MachineId, UnitIsGood;
    var prepared := Standings(s, units, aliases);
    forall i, j | 0 <= i < j < |prepared| ensures SubjectOf(prepared[i]) != SubjectOf(prepared[j]) {
      assert UnitId(units[i]) != UnitId(units[j]);
    }
  }

  lemma OrderedIsDistinct(units: seq<Unit>, admitted: seq<Bytes>)
    requires DistinctBy(Itself, admitted) && forall id :: id in admitted ==> Find(units, id).Some?
    ensures DistinctBy(UnitId, Ordered(units, admitted))
  {
    hide Find;
    var ordered := Ordered(units, admitted);
    forall i, j | 0 <= i < j < |ordered| ensures UnitId(ordered[i]) != UnitId(ordered[j]) {
      assert Itself(admitted[i]) != Itself(admitted[j]);
    }
  }

  /** A verdict on every admitted unit, or the reason why there is none. */
  method Run(req: Request, candidateOf: Bytes -> Bytes, derive: (seq<Bytes>, Key) -> Bytes, draw: seq<Bytes> -> bool)
    returns (r: Result<Resolution, Refusal>)
    requires OneToOne(candidateOf) && Injective(derive)
    ensures r.Err? <==> Failure(req).Some?
    ensures r.Err? ==> Some(r.error) == Failure(req)
    ensures r.Ok? ==> IsResolution(req.snapshot, PreparedOf(req), candidateOf, draw, r.value)
  {
    hide OneToOne, Injective, AliasesOf, Historical, Ordered, Standings, Total, Wanted, Candidates, IsVerdict, Find,
         DistinctBy, EvenMatch, IsEven, Given, Sound, Contenders, IsWinnerSet, MachineId;
    var ordered := Collect(req);
    if ordered == None {
      return Err(BadProvenance);
    }
    var history := BindHistory(req.history);
    if history.Err? {
      return Err(history.error);
    }
    var aliases := ResolveAliases(ordered.value, history.value);
    if aliases.Err? {
      return Err(aliases.error);
    }
    var s := req.snapshot;
    var unknown, prepared, candidates := Assess(s, ordered.value, aliases.value, candidateOf);
    if unknown {
      return Err(IndeterminateFacet);
    }
    OrderedIsDistinct(req.units, req.admitted);
    StandingsAreSound(s, ordered.value, aliases.value);
    CandidatesContend(s, prepared, candidateOf);
    TotalIsWanted(s, prepared, candidateOf);
    EvenIsEven(s, prepared, candidateOf);
    var winners := Allocate(s, candidates, derive, draw);
    if winners == None {
      return Err(IndeterminateFacet);
    }
    WinnersDecide(s, prepared, candidateOf, draw, winners.value);
    GivenFits(s, prepared, candidateOf, draw, Dispositions(prepared, candidateOf, winners.value));
    var resolution := Conclude(s, prepared, candidateOf, winners.value);
    return Ok(resolution);
  }

  // ----- what a resolution means -----

  /** What is given and what is left add up to what there was, for every resolution; and when the
      viable requests fit together they all get what they want, otherwise one gets everything. */
  lemma StockIsConserved(req: Request, candidateOf: Bytes -> Bytes, draw: seq<Bytes> -> bool, r: Resolution)
    requires OneToOne(candidateOf) && Failure(req) == None
    requires IsResolution(req.snapshot, PreparedOf(req), candidateOf, draw, r)
    ensures Given(PreparedOf(req), r.dispositions) + r.left == req.snapshot.available
    ensures r.left == if Wanted(PreparedOf(req)) <= req.snapshot.available then req.snapshot.available - Wanted(PreparedOf(req)) else 0
    ensures 0 <= r.left <= req.snapshot.available
  {
    hide Find, Historical, AliasesOf, Wanted, Given, IsVerdict, Standings, MachineId, DistinctBy;
    var ordered := Ordered(req.units, req.admitted);
    OrderedIsDistinct(req.units, req.admitted);
    StandingsAreSound(req.snapshot, ordered, AliasesOf(ordered, Historical(req.history).value).value.canonical);
    GivenFits(req.snapshot, PreparedOf(req), candidateOf, draw, r.dispositions);
  }

  /** Every admitted unit has exactly one verdict, in the order of the fence. */
  lemma VerdictsFollowTheFence(req: Request, candidateOf: Bytes -> Bytes, draw: seq<Bytes> -> bool, r: Resolution)
    requires Failure(req) == None && IsResolution(req.snapshot, PreparedOf(req), candidateOf, draw, r)
    ensures |r.dispositions| == |req.admitted|
    ensures forall k :: 0 <= k < |req.admitted| ==> r.dispositions[k].subject == req.admitted[k]
  {
    hide Find, Historical, AliasesOf, Wanted, Given, IsVerdict, MachineId;
  }

  /** A request is turned down for want of access or because it alone is too much; any other loses
      only to another one, and only when there is not enough for both. */
  lemma LosersLoseToSomeone(req: Request, candidateOf: Bytes -> Bytes, draw: seq<Bytes> -> bool, r: Resolution, k: nat)
    requires OneToOne(candidateOf) && Failure(req) == None && k < |req.admitted|
    requires IsResolution(req.snapshot, PreparedOf(req), candidateOf, draw, r)
    ensures r.dispositions[k].verdict == Outdrawn ==>
              && PreparedOf(req)[k].standing.Viable?
              && Wanted(PreparedOf(req)) > req.snapshot.available
              && exists j :: 0 <= j < |req.admitted| && j != k && r.dispositions[j].verdict == Allocated
    ensures r.dispositions[k].verdict == Allocated ==> PreparedOf(req)[k].standing.Viable?
  {
    hide Find, Historical, AliasesOf, Wanted, Given, Standings, MachineId, DistinctBy, Wins, EvenMatch;
    var ordered, prepared := Ordered(req.units, req.admitted), PreparedOf(req);
    OrderedIsDistinct(req.units, req.admitted);
    StandingsAreSound(req.snapshot, ordered, AliasesOf(ordered, Historical(req.history).value).value.canonical);
    assert IsVerdict(req.snapshot, prepared, candidateOf, draw, k, r.dispositions[k].verdict);
    if r.dispositions[k].verdict == Outdrawn {
      var winner := ContestHasOneWinner(req.snapshot, prepared, candidateOf, draw, r.dispositions);
      assert r.dispositions[winner].verdict == Allocated;
    }
  }

  lemma ResolutionIsUnique(req: Request, candidateOf: Bytes -> Bytes, draw: seq<Bytes> -> bool, a: Resolution, b: Resolution)
    requires Failure(req) == None
    requires IsResolution(req.snapshot, PreparedOf(req), candidateOf, draw, a)
    requires IsResolution(req.snapshot, PreparedOf(req), candidateOf, draw, b)
    ensures a == b
  {
    hide Find, Historical, AliasesOf, Wanted, Given, Standings, MachineId, DistinctBy, Wins, CountViable;
    var s, prepared := req.snapshot, PreparedOf(req);
    forall k | 0 <= k < |prepared| ensures a.dispositions[k] == b.dispositions[k] {
      assert IsVerdict(s, prepared, candidateOf, draw, k, a.dispositions[k].verdict);
      assert IsVerdict(s, prepared, candidateOf, draw, k, b.dispositions[k].verdict);
      if prepared[k].standing.Viable? && Wanted(prepared) > s.available {
        var i, j := TwoViable(prepared);
        var other := if k == i then j else i;
      }
    }
    assert a.dispositions == b.dispositions;
  }

  lemma FindIgnoresOrder(a: seq<Unit>, b: seq<Unit>, id: Bytes)
    requires multiset(a) == multiset(b) && DistinctBy(UnitId, a)
    ensures Find(a, id) == Find(b, id)
  {
    SameMembers(a, b);
    if Find(a, id).Some? && Find(b, id).Some? {
      var u, v := Find(a, id).value, Find(b, id).value;
      assert u in a && v in a && UnitId(u) == UnitId(v);
    }
  }

  /** The order in which the responses were delivered changes nothing. */
  lemma DeliveryOrderIsIrrelevant(a: Request, b: Request)
    requires multiset(a.units) == multiset(b.units)
    requires a.admitted == b.admitted && a.snapshot == b.snapshot && a.history == b.history
    ensures Failure(a) == Failure(b)
    ensures Failure(a) == None ==> PreparedOf(a) == PreparedOf(b)
  {
    hide Historical, AliasesOf, Unsettled, Standings, MachineId, UnitIsGood, Find, DistinctBy;
    SameMembers(a.units, b.units);
    DistinctIgnoresOrder(UnitId, a.units, b.units);
    DistinctIgnoresOrder(UnitId, b.units, a.units);
    if DistinctBy(UnitId, a.units) {
      forall id ensures Find(a.units, id) == Find(b.units, id) {
        FindIgnoresOrder(a.units, b.units, id);
      }
      assert WellFormed(a) <==> WellFormed(b);
      if WellFormed(a) {
        assert Ordered(a.units, a.admitted) == Ordered(b.units, b.admitted);
      }
    }
  }

  // ----- repeated requests -----

  ghost predicate Bears(u: Unit, namespace: Bytes, logical: Bytes) {
    u.form.Consume? && u.form.key == Keyed(namespace, logical)
  }

  /** Where a binding comes from: the history, or an earlier unit that repeats nothing itself. */
  ghost predicate Bound(units: seq<Unit>, history: Bindings, canonical: seq<Option<Bytes>>, namespace: Bytes, b: Binding)
    requires |canonical| == |units|
  {
    || (namespace in history && history[namespace].canonical == b.canonical && history[namespace].logical == b.logical)
    || (namespace !in history
        && exists j :: 0 <= j < |units| && canonical[j] == None && units[j].id == b.canonical && Bears(units[j], namespace, b.logical))
  }

  lemma AliasOneMore(units: seq<Unit>, history: Bindings)
    requires units != [] && AliasesOf(units, history).Ok?
    ensures var n := |units| - 1;
            && AliasesOf(units[..n], history).Ok?
            && var before, after := AliasesOf(units[..n], history).value, AliasesOf(units, history).value;
            && after.canonical[..n] == before.canonical
            && (forall m :: m in before.known ==> m in after.known && after.known[m] == before.known[m])
            && (forall m :: m in after.known && m !in before.known ==>
                  after.canonical[n] == None && units[n].id == after.known[m].canonical && Bears(units[n], m, after.known[m].logical))
            && (after.canonical[n].Some? ==>
                  && units[n].form.Consume? && units[n].form.key.Keyed?
                  && var key := units[n].form.key;
                     key.namespace in before.known && before.known[key.namespace].logical == key.logical
                     && after.canonical[n] == Some(before.known[key.namespace].canonical))
  {
  }

  lemma {:induction false} BindingsHaveOrigins(units: seq<Unit>, history: Bindings)
    requires AliasesOf(units, history).Ok?
    ensures var a := AliasesOf(units, history).value;
            && (forall namespace :: namespace in history ==> namespace in a.known)
            && forall namespace :: namespace in a.known ==> Bound(units, history, a.canonical, namespace, a.known[namespace])
  {
    if units != [] {
      AliasOneMore(units, history);
      hide AliasesOf;
      var n := |units| - 1;
      BindingsHaveOrigins(units[..n], history);
      var before, after := AliasesOf(units[..n], history).value, AliasesOf(units, history).value;
      forall m | m in after.known ensures Bound(units, history, after.canonical, m, after.known[m]) {
        if m in before.known {
          StillBound(units, history, before.canonical, after.canonical, m, after.known[m]);
        }
      }
    }
  }

  lemma StillBound(units: seq<Unit>, history: Bindings, before: seq<Option<Bytes>>, after: seq<Option<Bytes>>,
                   namespace: Bytes, b: Binding)
    requires units != [] && |after| == |units| && after[..|units| - 1] == before
    requires Bound(units[..|units| - 1], history, before, namespace, b)
    ensures Bound(units, history, after, namespace, b)
  {
    if namespace !in history {
      var init := units[..|units| - 1];
      var j :| 0 <= j < |init| && before[j] == None && init[j].id == b.canonical && Bears(init[j], namespace, b.logical);
      assert units[j] == init[j] && after[j] == before[j];
    }
  }

  /** A repeated request points to the first with its key: in the history if there is one, and
      otherwise earlier in the same fence. The two ask for the same, and the first repeats nothing. */
  lemma {:induction false} RepeatsPointToTheFirst(units: seq<Unit>, history: Bindings, k: nat)
    requires AliasesOf(units, history).Ok? && k < |units|
    requires AliasesOf(units, history).value.canonical[k].Some?
    ensures units[k].form.Consume? && units[k].form.key.Keyed?
    ensures var key, canonical := units[k].form.key, AliasesOf(units, history).value.canonical;
            Bound(units[..k], history, canonical[..k], key.namespace, Binding(key.namespace, key.logical, canonical[k].value))
  {
    var n := |units| - 1;
    AliasOneMore(units, history);
    hide AliasesOf;
    var init := units[..n];
    var before, after := AliasesOf(init, history).value, AliasesOf(units, history).value;
    if k < n {
      assert after.canonical[k] == after.canonical[..n][k] == before.canonical[k];
      RepeatsPointToTheFirst(init, history, k);
      assert init[..k] == units[..k] && before.canonical[..k] == after.canonical[..k];
    } else {
      BindingsHaveOrigins(init, history);
      var key := units[n].form.key;
      assert Bound(init, history, before.canonical, key.namespace, before.known[key.namespace]);
    }
  }

  // ----- institution -----

  /** What the institution says of an actor decides nothing: only for whom it says anything does. */
  lemma InstitutionDecidesNothing(req: Request, institution: map<Bytes, bool>, candidateOf: Bytes -> Bytes,
                                  draw: seq<Bytes> -> bool, r: Resolution)
    requires institution.Keys == req.snapshot.institution.Keys
    ensures var other := req.(snapshot := req.snapshot.(institution := institution));
            && Failure(other) == Failure(req)
            && (Failure(req) == None ==>
                  && PreparedOf(other) == PreparedOf(req)
                  && (IsResolution(other.snapshot, PreparedOf(other), candidateOf, draw, r)
                      <==> IsResolution(req.snapshot, PreparedOf(req), candidateOf, draw, r)))
  {
    hide Historical, AliasesOf, Find, Wanted, MachineId, DistinctBy, UnitIsGood, Ordered, Given;
    var other := req.(snapshot := req.snapshot.(institution := institution));
    assert WellFormed(other) <==> WellFormed(req);
    if WellFormed(req) {
      var units := Ordered(req.units, req.admitted);
      match Historical(req.history)
      case Err(_) =>
      case Ok(known) =>
        match AliasesOf(units, known)
        case Err(_) =>
        case Ok(a) => StandingsIgnoreInstitution(req.snapshot, institution, units, a.canonical);
    }
  }

  lemma StandingsIgnoreInstitution(s: Snapshot, institution: map<Bytes, bool>, units: seq<Unit>, aliases: seq<Option<Bytes>>)
    requires institution.Keys == s.institution.Keys
    requires |aliases| == |units| && forall u :: u in units ==> UnitIsGood(u)
    ensures Standings(s.(institution := institution), units, aliases) == Standings(s, units, aliases)
  {
    hide UnitIsGood;
    forall id ensures id in institution <==> id in s.institution {
      assert id in institution.Keys <==> id in s.institution.Keys;
    }
  }
}

/** Attempts of the cycles of a run: fences, the envelopes that end them, retries, and the control
    state folded from them. */
module Control {
  import opened Bytes
  import opened Domain
  import opened Sorting

  /** What a reference points to, and the identity and digest of it. */
  datatype Ref = Ref(kind: U64, id: Bytes)

  const COMMIT_REF: U64 := 12
  const ABORT_REF: U64 := 13
  const RETRY_REF: U64 := 14

  /** `frozen` is what a fence freezes besides its attempt, its retry reference and its
      pre-state: coordinate, plan, base, proofs, cohort and units. */
  datatype Entry =
    | Fence(cycle: Bytes, attempt: U64, retry: Option<Ref>, frozen: Bytes, ref: Ref)
    | Abort(cycle: Bytes, attempt: U64, fence: Ref, ref: Ref)
    | Commit(cycle: Bytes, attempt: U64, fence: Ref, ref: Ref)
    | Retry(cycle: Bytes, from: U64, to: U64, abort: Ref, ref: Ref)

  datatype Status = Idle | InFlight | RetryAuthorized | HaltedOnAbort

  datatype State = State(status: Status, cycle: Option<Bytes>, attempt: Option<U64>, fence: Option<Ref>,
                         retry: Option<Ref>, terminal: Option<Ref>, next: nat)

  const MAX_U32 := TWO_TO_32 - 1

  predicate IsTerminal(e: Entry) {
    e.Abort? || e.Commit?
  }

  // ----- which entries may follow -----

  /** A retry authorizes exactly the attempt after the aborted one. */
  function AuthorizeRetry(abort: Entry, ref: Ref): Option<Entry>
    requires abort.Abort?
  {
    if abort.attempt >= MAX_U32 then None
    else Some(Retry(abort.cycle, abort.attempt, abort.attempt + 1, Ref(ABORT_REF, abort.ref.id), ref))
  }

  /** Identities are digests of what tells two entries, or two cycles, apart. */
  ghost predicate IsNew(log: seq<Entry>, ref: Ref) {
    forall k :: 0 <= k < |log| ==> log[k].ref != ref
  }

  ghost predicate IsNewCycle(log: seq<Entry>, cycle: Bytes) {
    forall k :: 0 <= k < |log| ==> log[k].cycle != cycle
  }

  /** An envelope ends the attempt of the fence before it. */
  predicate Ends(last: Entry, e: Entry)
    requires IsTerminal(e)
  {
    last.Fence? && e.cycle == last.cycle && e.attempt == last.attempt && e.fence == last.ref
  }

  /** The checks between a new entry and those before it. A fence opens a cycle, or takes up the
      one a retry is authorized for. */
  ghost predicate CanAppend(first: U64, log: seq<Entry>, e: Entry) {
    && IsNew(log, e.ref)
    && match e
       case Fence(cycle, attempt, None, _, _) =>
         attempt == first && (log != [] ==> log[|log| - 1].Commit?) && IsNewCycle(log, cycle)
       case Fence(cycle, attempt, Some(retry), frozen, _) =>
         && |log| >= 3 && log[|log| - 1].Retry?
         && cycle == log[|log| - 1].cycle && attempt == log[|log| - 1].to && retry == log[|log| - 1].ref
         && log[|log| - 3].Fence? && frozen == log[|log| - 3].frozen
       case Abort(_, attempt, _, ref) =>
         log != [] && Ends(log[|log| - 1], e) && attempt <= MAX_U32 && ref.kind == ABORT_REF
       case Commit(_, _, _, ref) =>
         log != [] && Ends(log[|log| - 1], e) && ref.kind == COMMIT_REF
       case Retry(_, _, _, _, ref) =>
         log != [] && log[|log| - 1].Abort? && AuthorizeRetry(log[|log| - 1], ref) == Some(e) && ref.kind == RETRY_REF
  }

  ghost predicate Legal(first: U64, log: seq<Entry>) {
    log == [] || (Legal(first, log[..|log| - 1]) && CanAppend(first, log[..|log| - 1], log[|log| - 1]))
  }

  // ----- the folded state and its validator -----

  /** The fold looks before a retry without asking whether anything is there. */
  predicate IsFoldable(log: seq<Entry>) {
    log != [] && log[|log| - 1].Retry? ==> |log| >= 2
  }

  /** The stored form of a retry has no cycle. */
  function CycleIn(e: Entry): Option<Bytes> {
    if e.Retry? then None else Some(e.cycle)
  }

  /** Reads the last entry, and the one before a retry; whatever else comes last is taken for an abort. */
  function DeriveControlState(log: seq<Entry>): State
    requires IsFoldable(log)
  {
    if log == [] then State(Idle, None, None, None, None, None, 1)
    else
      var latest := log[|log| - 1];
      match latest
      case Fence(cycle, attempt, _, _, ref) => State(InFlight, Some(cycle), Some(attempt), Some(ref), None, None, attempt + 1)
      case Retry(_, _, to, _, ref) =>
        var abort := log[|log| - 2];
        State(RetryAuthorized, CycleIn(abort), Some(to), None, Some(ref), Some(abort.ref), to)
      case _ =>
        State(HaltedOnAbort, Some(latest.cycle), Some(latest.attempt), None, None, Some(latest.ref), latest.attempt + 1)
  }

  predicate ValidCycleControlState(s: State) {
    var attempt: nat := if s.attempt.Some? then s.attempt.value else 0;
    match s.status
    case Idle => s.cycle == None && s.attempt == None && s.fence == None && s.retry == None && s.next == 1
    case InFlight => s.cycle.Some? && s.attempt.Some? && s.fence.Some? && s.retry == None && s.next == attempt + 1
    case RetryAuthorized =>
      && s.cycle.Some? && s.attempt.Some? && s.fence == None && s.retry.Some? && s.terminal.Some?
      && s.next == attempt && s.terminal.value.kind == ABORT_REF
    case HaltedOnAbort =>
      && s.cycle.Some? && s.attempt.Some? && s.fence == None && s.retry == None && s.terminal.Some?
      && s.next == attempt + 1 && s.terminal.value.kind == ABORT_REF
  }

  // ----- the state the decision record defines -----

  /** A fence no envelope ends. */
  ghost predicate IsOpen(log: seq<Entry>, i: int) {
    && 0 <= i < |log| && log[i].Fence?
    && forall j :: 0 <= j < |log| && IsTerminal(log[j]) ==> log[j].fence != log[i].ref
  }

  /** A retry of the given abort. */
  predicate Answers(log: seq<Entry>, r: int, abort: Ref) {
    0 <= r < |log| && log[r].Retry? && log[r].abort == abort
  }

  function LastEnvelope(log: seq<Entry>): (r: Option<Entry>)
    ensures r.Some? ==> IsTerminal(r.value)
  {
    if log == [] then None
    else if IsTerminal(log[|log| - 1]) then Some(log[|log| - 1])
    else LastEnvelope(log[..|log| - 1])
  }

  /** One more than the largest attempt among the fences of a cycle; one if it has none. */
  function NextAttempt(log: seq<Entry>, cycle: Bytes): nat {
    if log == [] then 1
    else
      var last, next := log[|log| - 1], NextAttempt(log[..|log| - 1], cycle);
      if last.Fence? && last.cycle == cycle && last.attempt >= next then last.attempt + 1 else next
  }

  /** The ordered rules: an open fence decides; then a last envelope that is an abort, with its retry
      or without; everything else is idle. */
  ghost predicate FollowsTheRules(log: seq<Entry>, s: State) {
    var last := LastEnvelope(log);
    && s.terminal == (if last.Some? then Some(last.value.ref) else None)
    && s.next == (if s.cycle.Some? then NextAttempt(log, s.cycle.value) else 1)
    && if exists i :: IsOpen(log, i) then
         exists i :: IsOpen(log, i)
           && s == State(InFlight, Some(log[i].cycle), Some(log[i].attempt), Some(log[i].ref), None, s.terminal, s.next)
       else if last.Some? && last.value.Abort? then
         if exists r :: Answers(log, r, last.value.ref) then
           exists r :: Answers(log, r, last.value.ref)
             && s == State(RetryAuthorized, Some(last.value.cycle), Some(log[r].to), None, Some(log[r].ref), s.terminal, s.next)
         else
           s == State(HaltedOnAbort, Some(last.value.cycle), Some(last.value.attempt), None, None, s.terminal, s.next)
       else
         s == State(Idle, None, None, None, None, s.terminal, s.next)
  }

  // ----- every legal ledger -----

  /** What the entry at a position must be, told by its neighbours. */
  ghost predicate InTurn(first: U64, log: seq<Entry>, i: nat)
    requires i < |log|
  {
    && IsNew(log[..i], log[i].ref)
    && match log[i]
       case Fence(cycle, attempt, None, _, _) => attempt == first && (i > 0 ==> log[i - 1].Commit?) && IsNewCycle(log[..i], cycle)
       case Fence(cycle, attempt, Some(retry), frozen, _) =>
         && i >= 3 && log[i - 1].Retry? && log[i - 2].Abort? && log[i - 3].Fence?
         && retry == log[i - 1].ref && frozen == log[i - 3].frozen
         && cycle == log[i - 1].cycle == log[i - 3].cycle && attempt == log[i - 3].attempt + 1 <= MAX_U32
       case Abort(_, attempt, _, ref) => i >= 1 && Ends(log[i - 1], log[i]) && attempt <= MAX_U32 && ref.kind == ABORT_REF
       case Commit(_, _, _, ref) => i >= 1 && Ends(log[i - 1], log[i]) && ref.kind == COMMIT_REF
       case Retry(cycle, from, to, abort, ref) =>
         && i >= 2 && log[i - 1].Abort? && log[i - 2].Fence? && ref.kind == RETRY_REF
         && cycle == log[i - 1].cycle == log[i - 2].cycle && from == log[i - 1].attempt == log[i - 2].attempt
         && to == from + 1 <= MAX_U32 && abort == log[i - 1].ref
  }

  lemma {:induction false} LegalPrefix(first: U64, log: seq<Entry>, n: nat)
    requires Legal(first, log) && n <= |log|
    ensures Legal(first, log[..n])
  {
    if n < |log| {
      assert log[..|log| - 1][..n] == log[..n];
      LegalPrefix(first, log[..|log| - 1], n);
    } else {
      assert log[..n] == log;
    }
  }

  /** The shape of a legal ledger: attempts of a cycle rise by exactly one, each is ended before the
      next is authorized, every retry freezes the same cycle again, and a cycle that is committed
      never comes back. */
  lemma {:induction false} LegalLedgersTakeTurns(first: U64, log: seq<Entry>)
    requires Legal(first, log)
    ensures forall i :: 0 <= i < |log| ==> InTurn(first, log, i)
  {
    hide Legal, IsNew, IsNewCycle, CanAppend;
    forall i | 0 <= i < |log| ensures InTurn(first, log, i) {
      EntryAt(first, log, i);
      if i >= 1 {
        EntryAt(first, log, i - 1);
      }
      if i >= 2 {
        EntryAt(first, log, i - 2);
      }
      NeighboursAgree(first, log, i);
    }
  }

  lemma EntryAt(first: U64, log: seq<Entry>, i: nat)
    requires Legal(first, log) && i < |log|
    ensures CanAppend(first, log[..i], log[i]) && IsNew(log[..i], log[i].ref)
  {
    hide IsNew, IsNewCycle, CanAppend;
    LegalPrefix(first, log, i + 1);
    assert log[..i + 1][..i] == log[..i];
    HoldsAtTheEnd(first, log[..i + 1]);
    IsNewAtTheEnd(first, log[..i], log[i]);
  }

  lemma HoldsAtTheEnd(first: U64, log: seq<Entry>)
    requires Legal(first, log) && log != []
    ensures CanAppend(first, log[..|log| - 1], log[|log| - 1])
  {
  }

  lemma IsNewAtTheEnd(first: U64, log: seq<Entry>, e: Entry)
    requires CanAppend(first, log, e)
    ensures IsNew(log, e.ref)
  {
  }

  lemma NeighboursAgree(first: U64, log: seq<Entry>, i: nat)
    requires i < |log| && CanAppend(first, log[..i], log[i])
    requires i >= 1 ==> CanAppend(first, log[..i - 1], log[i - 1])
    requires i >= 2 ==> CanAppend(first, log[..i - 2], log[i - 2])
    requires IsNew(log[..i], log[i].ref)
    ensures InTurn(first, log, i)
  {
    hide IsNew, IsNewCycle;
  }

  lemma LegalIsFoldable(first: U64, log: seq<Entry>)
    requires Legal(first, log)
    ensures IsFoldable(log)
  {
    if log != [] {
      LegalLedgersTakeTurns(first, log);
      assert InTurn(first, log, |log| - 1);
    }
  }

  /** The folded state of any ledger is valid exactly when the abort it refers to is one: the last
      entry, or the one before a last retry. */
  lemma FoldedStateIsValidExactly(log: seq<Entry>)
    requires IsFoldable(log)
    ensures ValidCycleControlState(DeriveControlState(log))
       <==> || log == [] || log[|log| - 1].Fence?
            || (IsTerminal(log[|log| - 1]) && log[|log| - 1].ref.kind == ABORT_REF)
            || (log[|log| - 1].Retry? && !log[|log| - 2].Retry? && log[|log| - 2].ref.kind == ABORT_REF)
  {
  }

  /** The state folded from a legal ledger satisfies the validator exactly when no commit comes last. */
  lemma FoldedStateIsValid(first: U64, log: seq<Entry>)
    requires Legal(first, log)
    ensures IsFoldable(log)
    ensures ValidCycleControlState(DeriveControlState(log)) <==> log == [] || !log[|log| - 1].Commit?
  {
    hide Legal, IsNew, IsNewCycle, DeriveControlState, ValidCycleControlState;
    LegalIsFoldable(first, log);
    FoldedStateIsValidExactly(log);
    LegalLedgersTakeTurns(first, log);
    if log != [] {
      var n := |log| - 1;
      assert InTurn(first, log, n);
      if log[n].Retry? {
        assert InTurn(first, log, n - 1);
      }
    }
  }

  // ----- the fold and the rules -----

  /** Only the last entry can be an open fence: every other one is followed by its envelope. */
  lemma OpenIsLast(first: U64, log: seq<Entry>, i: int)
    requires Legal(first, log)
    ensures IsOpen(log, i) <==> i == |log| - 1 && i >= 0 && log[i].Fence?
  {
    hide Legal, IsNewCycle;
    LegalLedgersTakeTurns(first, log);
    if 0 <= i < |log| - 1 && log[i].Fence? {
      assert InTurn(first, log, i + 1);
      assert IsTerminal(log[i + 1]) && log[i + 1].fence == log[i].ref;
    } else if i == |log| - 1 && i >= 0 && log[i].Fence? {
      assert InTurn(first, log, i);
      forall j | 0 <= j < |log| && IsTerminal(log[j]) ensures log[j].fence != log[i].ref {
        assert InTurn(first, log, j);
        assert log[..i][j - 1].ref != log[i].ref;
      }
    }
  }

  /** Only a retry right behind it answers an abort. */
  lemma AnswerFollows(first: U64, log: seq<Entry>, a: nat, r: int)
    requires Legal(first, log) && a < |log| && log[a].Abort?
    ensures Answers(log, r, log[a].ref) <==> r == a + 1 < |log| && log[r].Retry?
  {
    hide Legal, IsNewCycle;
    LegalLedgersTakeTurns(first, log);
    if 0 <= r < |log| && log[r].Retry? {
      assert InTurn(first, log, r);
      if r - 1 < a {
        assert InTurn(first, log, a);
        assert log[..a][r - 1].ref != log[a].ref;
      } else if a < r - 1 {
        assert InTurn(first, log, r - 1);
        assert log[..r - 1][a].ref != log[r - 1].ref;
      }
    }
  }

  function AttemptOf(e: Entry): U64 {
    if e.Retry? then e.from else e.attempt
  }

  /** The largest attempt of the cycle of the last entry is the one that entry belongs to. */
  lemma {:induction false} LastAttemptIsLargest(first: U64, log: seq<Entry>)
    requires Legal(first, log) && log != []
    ensures NextAttempt(log, log[|log| - 1].cycle) == AttemptOf(log[|log| - 1]) + 1
  {
    hide Legal, IsNew;
    var n := |log| - 1;
    var init, last := log[..n], log[n];
    LegalLedgersTakeTurns(first, log);
    assert InTurn(first, log, n);
    if last.Fence? && last.retry == None {
      NoFenceYet(init, last.cycle);
    } else {
      LegalPrefix(first, log, n);
      LastAttemptIsLargest(first, init);
      if n >= 1 {
        assert InTurn(first, log, n - 1);
      }
    }
  }

  lemma {:induction false} NoFenceYet(log: seq<Entry>, cycle: Bytes)
    requires IsNewCycle(log, cycle)
    ensures NextAttempt(log, cycle) == 1
  {
    if log != [] {
      NoFenceYet(log[..|log| - 1], cycle);
    }
  }

  /** When the fold gives what the rules give: not after a commit, which it has no rule for, and not
      for an attempt in flight once an envelope has been written, which it forgets. */
  predicate IsFoldedAsDocumented(log: seq<Entry>) {
    log == [] || (!log[|log| - 1].Commit? && (log[|log| - 1].Fence? ==> LastEnvelope(log) == None))
  }

  lemma FoldFollowsTheRules(first: U64, log: seq<Entry>)
    requires Legal(first, log)
    ensures IsFoldable(log)
    ensures FollowsTheRules(log, DeriveControlState(log)) <==> IsFoldedAsDocumented(log)
  {
    hide Legal, IsNew, IsNewCycle, IsOpen, Answers, NextAttempt, FollowsTheRules, InTurn;
    LegalIsFoldable(first, log);
    if log == [] {
      RulesAtGenesis();
    } else {
      var n := |log| - 1;
      forall i ensures IsOpen(log, i) <==> i == n && log[n].Fence? {
        OpenIsLast(first, log, i);
      }
      LastAttemptIsLargest(first, log);
      match log[n]
      case Fence(_, _, _, _, _) => RulesInFlight(log);
      case Retry(_, _, _, _, _) => RulesWhenAuthorized(first, log);
      case Commit(_, _, _, ref) => RulesAtTheEnd(log, ref);
      case Abort(_, _, _, ref) =>
        forall r ensures !Answers(log, r, ref) {
          AnswerFollows(first, log, n, r);
        }
        RulesAtTheEnd(log, ref);
    }
  }

  lemma RulesAtGenesis()
    ensures FollowsTheRules([], DeriveControlState([]))
  {
  }

  lemma RulesInFlight(log: seq<Entry>)
    requires log != [] && log[|log| - 1].Fence?
    requires forall i :: IsOpen(log, i) <==> i == |log| - 1
    requires NextAttempt(log, log[|log| - 1].cycle) == log[|log| - 1].attempt + 1
    ensures FollowsTheRules(log, DeriveControlState(log)) <==> LastEnvelope(log) == None
  {
    hide IsOpen, NextAttempt, LastEnvelope, Answers;
    assert IsOpen(log, |log| - 1);
  }

  lemma RulesWhenAuthorized(first: U64, log: seq<Entry>)
    requires Legal(first, log) && log != [] && log[|log| - 1].Retry?
    requires forall i :: !IsOpen(log, i)
    requires NextAttempt(log, log[|log| - 1].cycle) == log[|log| - 1].from + 1
    ensures IsFoldable(log) && FollowsTheRules(log, DeriveControlState(log))
  {
    hide Legal, IsNew, IsNewCycle, IsOpen, Answers, NextAttempt;
    LegalLedgersTakeTurns(first, log);
    var n := |log| - 1;
    assert InTurn(first, log, n);
    assert LastEnvelope(log) == LastEnvelope(log[..n]) == Some(log[n - 1]);
    var abort := log[n - 1].ref;
    forall r ensures Answers(log, r, abort) <==> r == n {
      AnswerFollows(first, log, n - 1, r);
    }
    assert Answers(log, n, abort);
  }

  lemma RulesAtTheEnd(log: seq<Entry>, ref: Ref)
    requires log != [] && IsTerminal(log[|log| - 1]) && log[|log| - 1].ref == ref
    requires forall i :: !IsOpen(log, i)
    requires log[|log| - 1].Abort? ==> forall r :: !Answers(log, r, ref)
    requires NextAttempt(log, log[|log| - 1].cycle) == log[|log| - 1].attempt + 1
    ensures FollowsTheRules(log, DeriveControlState(log)) <==> log[|log| - 1].Abort?
  {
    hide IsOpen, Answers, NextAttempt;
    assert LastEnvelope(log) == Some(log[|log| - 1]);
  }

  /** What may follow in each state, as the rules allow it: unless a commit came last, only the
      envelope of the fence in flight, the retry of the last abort, or the fence of the authorized
      attempt. */
  lemma StatusDecidesWhatFollows(first: U64, log: seq<Entry>, e: Entry)
    requires Legal(first, log + [e])
    ensures IsFoldable(log)
    ensures var s := DeriveControlState(log);
            match s.status
            case Idle => e.Fence? && e.retry == None
            case InFlight => IsTerminal(e) && s.fence == Some(e.fence) && s.cycle == Some(e.cycle) && s.attempt == Some(e.attempt)
            case HaltedOnAbort =>
              if log[|log| - 1].Commit? then e.Fence? && e.retry == None && s.cycle != Some(e.cycle)
              else e.Retry? && s.terminal == Some(e.abort) && s.cycle == Some(e.cycle) && s.next == e.to
            case RetryAuthorized => e.Fence? && e.retry == s.retry && s.cycle == Some(e.cycle) && s.next == e.attempt
  {
    hide Legal, IsNew;
    var all, n := log + [e], |log|;
    assert all[..n] == log && all[n] == e;
    LegalPrefix(first, all, n);
    LegalIsFoldable(first, log);
    LegalLedgersTakeTurns(first, all);
    assert InTurn(first, all, n);
    if n > 0 {
      assert all[n - 1] == log[n - 1];
      assert InTurn(first, all, n - 1);
      if n > 1 {
        assert all[n - 2] == log[n - 2];
      }
    }
  }

  // ----- attempts -----

  /** Neither opens an attempt nor closes a cycle. */
  ghost predicate KeepsAttempt(log: seq<Entry>) {
    forall i :: 0 <= i < |log| ==> log[i].Abort? || log[i].Retry?
  }

  /** From any point of a legal ledger, the next fence of the cycle carries the announced attempt.
      The first fence of a cycle does exactly when attempts start at one. */
  lemma NextFenceCarriesNextAttempt(first: U64, log: seq<Entry>, more: seq<Entry>, fence: Entry)
    requires Legal(first, log + more + [fence]) && fence.Fence? && KeepsAttempt(more)
    ensures IsFoldable(log)
    ensures log != [] && !log[|log| - 1].Commit? ==> fence.attempt == DeriveControlState(log).next
    ensures log == [] ==> (fence.attempt == DeriveControlState(log).next <==> first == 1)
    ensures log == [] || log[|log| - 1].Commit? ==> fence.attempt == first
  {
    hide Legal, IsNew, IsNewCycle;
    var all, n := log + more + [fence], |log| + |more|;
    assert all[..|log|] == log && all[n] == fence;
    forall k | |log| <= k < n ensures all[k].Abort? || all[k].Retry? {
      assert all[k] == more[k - |log|];
    }
    LegalPrefix(first, all, |log|);
    LegalIsFoldable(first, log);
    NextFenceAt(first, all, |log|, n);
  }

  lemma NextFenceAt(first: U64, log: seq<Entry>, a: nat, n: nat)
    requires Legal(first, log) && a <= n < |log| && log[n].Fence? && IsFoldable(log[..a])
    requires forall k :: a <= k < n ==> log[k].Abort? || log[k].Retry?
    ensures a == 0 || log[a - 1].Commit? ==> log[n].attempt == first
    ensures a > 0 && !log[a - 1].Commit? ==> log[n].attempt == DeriveControlState(log[..a]).next
  {
    hide Legal, IsNew, IsNewCycle;
    LegalLedgersTakeTurns(first, log);
    assert InTurn(first, log, n);
    if n >= 1 {
      assert InTurn(first, log, n - 1);
    }
    if n >= 2 {
      assert InTurn(first, log, n - 2);
    }
    if a < n {
      assert log[a].Abort? || log[a].Retry?;
      assert InTurn(first, log, a);
    }
    if a >= 1 {
      assert log[..a][a - 1] == log[a - 1];
    }
  }

  /** At most one attempt is in flight: as many envelopes as fences, or one fewer. */
  lemma {:induction false} AtMostOneInFlight(first: U64, log: seq<Entry>)
    requires Legal(first, log)
    ensures IsFoldable(log)
    ensures Fences(log) == Envelopes(log) + if DeriveControlState(log).status == InFlight then 1 else 0
  {
    hide Legal, IsNew, IsNewCycle;
    LegalIsFoldable(first, log);
    if log != [] {
      var n := |log| - 1;
      LegalPrefix(first, log, n);
      AtMostOneInFlight(first, log[..n]);
      LegalLedgersTakeTurns(first, log);
      assert InTurn(first, log, n);
    }
  }

  function Fences(log: seq<Entry>): nat {
    if log == [] then 0 else Fences(log[..|log| - 1]) + if log[|log| - 1].Fence? then 1 else 0
  }

  function Envelopes(log: seq<Entry>): nat {
    if log == [] then 0 else Envelopes(log[..|log| - 1]) + if IsTerminal(log[|log| - 1]) then 1 else 0
  }

  // ----- the subjects of an abort -----

  /** `versioned` says that its validator is named with a version and a hash. */
  datatype Subject = Subject(kind: nat, id: Bytes, versioned: bool, details: Bytes)

  datatype Refusal = DuplicateSubject | UnversionedValidator

  function KeyOf(s: Subject): (nat, Bytes) {
    (s.kind, s.id)
  }

  predicate SubjectLess(a: Subject, b: Subject) {
    if a.kind != b.kind then a.kind < b.kind else Less(a.id, b.id)
  }

  lemma SubjectsAreOrdered()
    ensures Orders(SubjectLess, KeyOf)
  {
    forall b: Bytes ensures !Less(b, b) {
      LessIrreflexive(b);
    }
    forall a, b, c | Less(a, b) && Less(b, c) ensures Less(a, c) {
      LessTransitive(a, b, c);
    }
    forall a, b ensures Less(a, b) || a == b || Less(b, a) {
      LessTotal(a, b);
    }
  }

  predicate Repeats(sorted: seq<Subject>, j: int) {
    0 < j < |sorted| && KeyOf(sorted[j - 1]) == KeyOf(sorted[j])
  }

  /** Why the subjects in canonical order are refused: the first that repeats the one before it, or
      that has no versioned validator. */
  function FirstRefusal(sorted: seq<Subject>): Option<Refusal> {
    if sorted == [] then None
    else
      var n := |sorted| - 1;
      var before := FirstRefusal(sorted[..n]);
      if before.Some? then before
      else if Repeats(sorted, n) then Some(DuplicateSubject)
      else if !sorted[n].versioned then Some(UnversionedValidator)
      else None
  }

  lemma {:induction false} NoRefusal(sorted: seq<Subject>)
    ensures FirstRefusal(sorted) == None <==> (forall j :: !Repeats(sorted, j)) && forall s :: s in sorted ==> s.versioned
  {
    hide KeyOf;
    if sorted != [] {
      var n := |sorted| - 1;
      NoRefusal(sorted[..n]);
      assert sorted == sorted[..n] + [sorted[n]];
      forall j ensures Repeats(sorted, j) <==> Repeats(sorted[..n], j) || (j == n && Repeats(sorted, n)) {
      }
    }
  }

  /** The indeterminate subjects of an abort in canonical order; a repeated one is refused, and so is
      one without a versioned validator. Unless refused, the result depends only on which subjects
      there are. */
  method CanonicalSubjects(unknown: seq<Subject>) returns (r: Result<seq<Subject>, Refusal>)
    ensures r.Ok? <==> DistinctBy(KeyOf, unknown) && forall s :: s in unknown ==> s.versioned
    ensures r.Ok? ==> r.value == Sort(SubjectLess, unknown) && StrictlySorted(SubjectLess, r.value)
    ensures r.Err? && DistinctBy(KeyOf, unknown) ==> r.error == UnversionedValidator
    ensures r.Err? && (forall s :: s in unknown ==> s.versioned) ==> r.error == DuplicateSubject
  {
    hide SubjectLess, KeyOf, Less, Sort;
    SubjectsAreOrdered();
    var sorted := SortSlice(SubjectLess, unknown);
    DistinctIgnoresOrder(KeyOf, unknown, sorted);
    DistinctIgnoresOrder(KeyOf, sorted, unknown);
    SameMembers(unknown, sorted);
    NoRefusal(sorted);
    for i := 0 to |sorted|
      invariant FirstRefusal(sorted[..i]) == None
    {
      assert sorted[..i + 1][..i] == sorted[..i];
      if i > 0 && KeyOf(sorted[i]) == KeyOf(sorted[i - 1]) {
        assert Repeats(sorted, i);
        return Err(DuplicateSubject);
      }
      if !sorted[i].versioned {
        assert sorted[i] in sorted;
        return Err(UnversionedValidator);
      }
    }
    assert sorted[..|sorted|] == sorted;
    forall j | 0 < j < |sorted| ensures KeyOf(sorted[j - 1]) != KeyOf(sorted[j]) {
      assert !Repeats(sorted, j);
    }
    NeighboursDecide(SubjectLess, KeyOf, sorted);
    DistinctIsTotal(SubjectLess, KeyOf, unknown);
    SortedIsSort(SubjectLess, unknown, sorted);
    return Ok(sorted);
  }
}

/** The journal of committed cycles: how the clock, the revision and the logical sequence move
    over any run of WORK and clock advances. */
module Journal {
  import opened Bytes
  import opened Domain
  import AdvanceBatch
  import Clock
  import MixedBatch
  import ResourceBatch
  import Resolver
  import Scheduler

  const MAX_SAME_INSTANT_WORK := 64

  /** One committed cycle, with the logical sequence numbers its events carry. */
  datatype Commit =
    | WorkCommit(before: Clock.State, ordinal: U64, sequences: seq<nat>)
    | AdvanceCommit(before: Clock.State, plan: Clock.Plan, sequences: seq<nat>)

  predicate CascadeExceeded(committedAtInstant: nat) {
    committedAtInstant >= MAX_SAME_INSTANT_WORK
  }

  /** WORK commits at an instant. */
  function CountWork(log: seq<Commit>, instant: I64): nat {
    if log == [] then 0
    else
      var last := log[|log| - 1];
      CountWork(log[..|log| - 1], instant) + if last.WorkCommit? && last.before.instant == instant then 1 else 0
  }

  /** `uint64` arithmetic. */
  function Wrapped(n: nat): U64 {
    n % TWO_TO_64
  }

  ghost predicate NumberedFrom(sequences: seq<nat>, base: U64) {
    forall i :: 0 <= i < |sequences| ==> sequences[i] == Wrapped(base + i)
  }

  /** What both commit paths check before they publish, given what was committed before. */
  ghost predicate Legal(c: Commit, history: seq<Commit>) {
    match c
    case WorkCommit(before, ordinal, sequences) =>
      && Scheduler.WorkGuard(before, ordinal, |sequences|)
      && NumberedFrom(sequences, before.nextLogicalSequence)
      && !CascadeExceeded(CountWork(history, before.instant))
    case AdvanceCommit(before, plan, sequences) =>
      && Clock.ApplyAdvance(before, plan).Ok?
      && |sequences| >= 2
      && NumberedFrom(sequences, before.nextLogicalSequence)
  }

  /** The clock a commit leaves behind. */
  ghost function After(c: Commit, history: seq<Commit>): Clock.State
    requires Legal(c, history)
  {
    match c
    case WorkCommit(before, ordinal, sequences) => Scheduler.WorkClock(before, ordinal, |sequences|)
    case AdvanceCommit(before, plan, sequences) =>
      Clock.ApplyAdvance(before, plan).value.(
        nextLogicalSequence := Wrapped(before.nextLogicalSequence + |sequences|))
  }

  /** Every commit is legal and starts from the clock the one before it left. */
  ghost predicate IsJournal(start: Clock.State, log: seq<Commit>)
    decreases |log|, 0
  {
    log == [] || var init, last := log[..|log| - 1], log[|log| - 1];
      IsJournal(start, init) && last.before == ClockAfter(start, init) && Legal(last, init)
  }

  ghost function ClockAfter(start: Clock.State, log: seq<Commit>): Clock.State
    requires IsJournal(start, log)
    decreases |log|, 1
  {
    if log == [] then start else After(log[|log| - 1], log[..|log| - 1])
  }

  ghost predicate Earlier(a: Clock.State, b: Clock.State) {
    a.instant < b.instant || (a.instant == b.instant && a.lastOrdinal < b.lastOrdinal)
  }

  // ----- one commit -----

  lemma CommitMovesForward(c: Commit, history: seq<Commit>)
    requires Legal(c, history)
    ensures Earlier(c.before, After(c, history))
    ensures After(c, history).revision == Wrapped(c.before.revision + 1)
    ensures After(c, history).nextLogicalSequence == Wrapped(c.before.nextLogicalSequence + |c.sequences|)
    ensures c.WorkCommit? ==> After(c, history).nextLogicalSequence == c.before.nextLogicalSequence + |c.sequences|
  {
  }

  /** A WORK batch is a legal commit as long as the cascade limit is not reached. */
  lemma WorkBatchIsLegal(w: MixedBatch.Work, byId: MixedBatch.Responses, b: MixedBatch.Batch, history: seq<Commit>)
    requires MixedBatch.IsBatch(w, byId, b) && !CascadeExceeded(CountWork(history, w.state.instant))
    ensures var sequences := seq(|b.events|, i requires 0 <= i < |b.events| => b.events[i].sequence);
            var c := WorkCommit(w.state, w.ordinal, sequences);
            Legal(c, history) && After(c, history) == b.clock
  {
    hide CountWork, MixedBatch.IsDecision;
  }

  /** So is the commit of a contest: its effect and its lifecycle events together have no gap. */
  lemma ContestIsLegal(c: ResourceBatch.Contest, b: ResourceBatch.ResourceCommit, history: seq<Commit>)
    requires ResourceBatch.IsContest(c) && ResourceBatch.IsCommit(c, b)
    requires !CascadeExceeded(CountWork(history, c.w.state.instant))
    ensures var sequences := [b.effect.sequence] + seq(|b.lifecycles|, i requires 0 <= i < |b.lifecycles| => b.lifecycles[i].sequence);
            var commit := WorkCommit(c.w.state, c.w.ordinal, sequences);
            Legal(commit, history) && After(commit, history) == b.clock
  {
    hide CountWork, MixedBatch.IsDecision, MixedBatch.IsPlan, ResourceBatch.SoleWinner, Resolver.Given;
  }

  lemma AtLeastTwo(triggers: seq<AdvanceBatch.Trigger>)
    ensures |AdvanceBatch.Contents(triggers)| >= 2
  {
  }

  /** And the batch of a clock advance. */
  lemma AdvanceBatchIsLegal(state: Clock.State, plan: Clock.Plan, triggers: seq<AdvanceBatch.Trigger>,
                            b: AdvanceBatch.Batch, history: seq<Commit>)
    requires AdvanceBatch.IsBatch(state, plan, triggers, b)
    ensures var sequences := seq(|b.events|, i requires 0 <= i < |b.events| => b.events[i].sequence);
            var c := AdvanceCommit(state, plan, sequences);
            Legal(c, history) && After(c, history) == b.clock
  {
    hide AdvanceBatch.Contents, AdvanceBatch.Changes, AdvanceBatch.Fired;
    AtLeastTwo(triggers);
  }

  // ----- every run -----

  lemma {:induction false} PrefixIsJournal(start: Clock.State, log: seq<Commit>, n: nat)
    requires IsJournal(start, log) && n <= |log|
    ensures IsJournal(start, log[..n])
  {
    if n < |log| {
      assert log[..|log| - 1][..n] == log[..n];
      PrefixIsJournal(start, log[..|log| - 1], n);
    } else {
      assert log[..n] == log;
    }
  }

  /** Over any run the pair of instant and last ordinal strictly increases, from any point to
      any later one. */
  lemma {:induction false} ClockMovesForward(start: Clock.State, log: seq<Commit>, n: nat)
    requires IsJournal(start, log) && n < |log|
    ensures IsJournal(start, log[..n])
    ensures Earlier(ClockAfter(start, log[..n]), ClockAfter(start, log))
  {
    PrefixIsJournal(start, log, n);
    var init, last := log[..|log| - 1], log[|log| - 1];
    CommitMovesForward(last, init);
    if n < |init| {
      assert init[..n] == log[..n];
      ClockMovesForward(start, init, n);
    }
  }

  /** The revision counts the commits. */
  lemma {:induction false} RevisionCountsCommits(start: Clock.State, log: seq<Commit>)
    requires IsJournal(start, log)
    ensures ClockAfter(start, log).revision == Wrapped(start.revision + |log|)
    ensures start.revision + |log| <= MAX_U64 ==> ClockAfter(start, log).revision == start.revision + |log|
  {
    if log != [] {
      hide After, Legal, Wrapped;
      var init, last := log[..|log| - 1], log[|log| - 1];
      RevisionCountsCommits(start, init);
      CommitMovesForward(last, init);
      AddWrapped(start.revision + |init|, 1);
    }
    SmallIsUnwrapped(start.revision + |log|);
  }

  /** The sequence numbers of all events, in the order of publication. */
  function Published(log: seq<Commit>): seq<nat> {
    if log == [] then [] else Published(log[..|log| - 1]) + log[|log| - 1].sequences
  }

  /** Events are numbered without a gap or a repeat across commits, and the clock carries the
      number of the next one; all of it as `uint64` arithmetic adds. */
  lemma {:induction false} SequenceHasNoGaps(start: Clock.State, log: seq<Commit>)
    requires IsJournal(start, log)
    ensures NumberedFrom(Published(log), start.nextLogicalSequence)
    ensures ClockAfter(start, log).nextLogicalSequence == Wrapped(start.nextLogicalSequence + |Published(log)|)
  {
    if log != [] {
      var init, last := log[..|log| - 1], log[|log| - 1];
      LastCommit(start, log);
      PublishedOneMore(log);
      hide IsJournal, ClockAfter, NumberedFrom, Wrapped, Published;
      SequenceHasNoGaps(start, init);
      NumberedAppend(Published(init), last.sequences, start.nextLogicalSequence);
      AddWrapped(start.nextLogicalSequence + |Published(init)|, |last.sequences|);
    } else {
      assert Published(log) == [];
    }
  }

  lemma PublishedOneMore(log: seq<Commit>)
    requires log != []
    ensures Published(log) == Published(log[..|log| - 1]) + log[|log| - 1].sequences
  {
  }

  lemma LastCommit(start: Clock.State, log: seq<Commit>)
    requires log != [] && IsJournal(start, log)
    ensures var init, last := log[..|log| - 1], log[|log| - 1];
            && IsJournal(start, init)
            && NumberedFrom(last.sequences, ClockAfter(start, init).nextLogicalSequence)
            && ClockAfter(start, log).nextLogicalSequence
               == Wrapped(ClockAfter(start, init).nextLogicalSequence + |last.sequences|)
  {
    var init, last := log[..|log| - 1], log[|log| - 1];
    hide NumberedFrom, CountWork;
    CommitMovesForward(last, init);
  }

  lemma NumberedAppend(a: seq<nat>, b: seq<nat>, base: U64)
    requires NumberedFrom(a, base) && NumberedFrom(b, Wrapped(base + |a|))
    ensures NumberedFrom(a + b, base)
  {
    hide Wrapped;
    forall i | 0 <= i < |b| ensures b[i] == Wrapped(base + |a| + i) {
      AddWrapped(base + |a|, i);
    }
  }

  lemma SmallIsUnwrapped(n: nat)
    ensures n <= MAX_U64 ==> Wrapped(n) == n
  {
  }

  lemma AddWrapped(a: nat, b: nat)
    ensures Wrapped(Wrapped(a) + b) == Wrapped(a + b)
  {
  }

  /** The numbers are plainly consecutive exactly as long as the counter does not overflow. Only
      a clock advance can make it: WORK refuses. */
  lemma SequenceIsConsecutive(start: Clock.State, log: seq<Commit>)
    requires IsJournal(start, log)
    ensures (forall k :: 0 <= k < |Published(log)| ==> Published(log)[k] == start.nextLogicalSequence + k)
       <==> start.nextLogicalSequence + |Published(log)| <= TWO_TO_64
  {
    hide IsJournal;
    SequenceHasNoGaps(start, log);
    var all, base := Published(log), start.nextLogicalSequence;
    if base + |all| > TWO_TO_64 {
      var k := TWO_TO_64 - base;
      assert all[k] == 0;
    }
  }

  /** No instant ever has more than 64 WORK commits. */
  lemma {:induction false} CascadeIsBounded(start: Clock.State, log: seq<Commit>, instant: I64)
    requires IsJournal(start, log)
    ensures CountWork(log, instant) <= MAX_SAME_INSTANT_WORK
  {
    if log != [] {
      CascadeIsBounded(start, log[..|log| - 1], instant);
    }
  }
}

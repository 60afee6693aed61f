/** What becomes of a scheduled occurrence when its cycle settles it. */
module Settlement {
  import opened Bytes
  import opened Domain

  /** The recurrence option of an occurrence record: `remaining` counts this occurrence too. */
  datatype Recurrence = Never | Every(interval: I64, remaining: Option<U64>)

  datatype Outcome = Reject | Defer(due: I64, recurrence: Recurrence)

  datatype Error = InvalidInterval | InvalidRemaining | TimestampOverflow | NotInTheFuture

  function OccurrenceOutcome(due: I64, recurrence: Recurrence, at: I64): (r: Result<Outcome, Error>)
    ensures r.Ok? && r.value.Defer? ==> r.value.due > at
  {
    match recurrence
    case Never => Ok(Reject)
    case Every(interval, remaining) =>
      if interval <= 0 then Err(InvalidInterval)
      else if remaining.Some? && !(1 <= remaining.value < TWO_TO_32) then Err(InvalidRemaining)
      else if remaining == Some(1) then Ok(Reject)
      else if due > MAX_I64 - interval then Err(TimestampOverflow)
      else if due + interval <= at then Err(NotInTheFuture)
      else Ok(Defer(due + interval, Every(interval, if remaining.Some? then Some(remaining.value - 1) else None)))
  }

  /** The instants at which an occurrence and its successors run, each settled when due, for
      at most `fuel` of them. */
  function Runs(due: I64, recurrence: Recurrence, fuel: nat): seq<I64>
    decreases fuel
  {
    if fuel == 0 then []
    else
      match OccurrenceOutcome(due, recurrence, due)
      case Err(_) => []
      case Ok(Reject) => [due]
      case Ok(Defer(next, rest)) => [due] + Runs(next, rest, fuel - 1)
  }

  lemma Steps(k: nat, interval: int)
    ensures (k + 1) * interval == k * interval + interval
    ensures interval >= 0 ==> k * interval >= 0
  {
  }

  /** A recurrence with a count runs exactly that often, evenly spaced, and then stops. */
  lemma {:induction false} CountedRecurrence(due: I64, interval: I64, count: U64, fuel: nat)
    requires interval > 0 && 1 <= count < TWO_TO_32 && fuel >= count
    requires due + (count - 1) * interval <= MAX_I64
    ensures |Runs(due, Every(interval, Some(count)), fuel)| == count
    ensures forall k :: 0 <= k < count ==> Runs(due, Every(interval, Some(count)), fuel)[k] == due + k * interval
    decreases fuel
  {
    if count > 1 {
      Steps(count - 2, interval);
      var next: I64 := due + interval;
      CountedRecurrence(next, interval, count - 1, fuel - 1);
      var rest := Runs(next, Every(interval, Some(count - 1)), fuel - 1);
      assert Runs(due, Every(interval, Some(count)), fuel) == [due] + rest;
      forall k | 0 < k < count ensures rest[k - 1] == due + k * interval {
        Steps(k - 1, interval);
      }
    }
  }
}

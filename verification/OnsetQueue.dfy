/** How long the onset queue gets: never longer than the grid instants it can wait for, and
    therefore at times one entry longer than the tuning file says. */
module OnsetQueue {
  import opened Soreness
  import opened SorenessProperties

  // ----- the length of the queue -----

  ghost predicate GridPoint(x: real, resolution: real) {
    exists k :: x == GridInstant(k, resolution)
  }

  /** Every entry is a grid instant between now and the release of damage dosed now. */
  ghost predicate QueueWithin(p: Params, t: real, q: seq<Onset>) {
    forall o :: o in q ==>
      && t <= o.releaseAt <= OnsetInstant(t + p.onsetDelay, p.onsetResolution)
      && GridPoint(o.releaseAt, p.onsetResolution)
  }

  lemma StepKeepsQueueWithin(p: Params, t: real, i: Interval, dose: real, adapted: real, region: Region)
    requires Sensible(p) && i.dt >= 0.0 && p.onsetResolution > 0.0
    requires Increasing(region.pending) && QueueWithin(p, t, region.pending)
    ensures Increasing(StepRegion(p, t, i, dose, adapted, region).pending)
    ensures QueueWithin(p, t + i.dt, StepRegion(p, t, i, dose, adapted, region).pending)
  {
    hide Put, Held, Positive, Admitted, Due, Flowed, Felt, Chain, GridInstant, Ceiling, Transferred, Stages, Increasing;
    var end, pending := t + i.dt, region.pending;
    var held, queue := Held(pending, end), NewQueue(p, end, dose, adapted, pending);
    HeldKeepsOrder(pending, end);
    var release := OnsetInstant(end + p.onsetDelay, p.onsetResolution);
    assert GridPoint(release, p.onsetResolution);
    ReleaseIsNeverEarly(end + p.onsetDelay, p.onsetResolution);
    OnsetIsMonotone(t + p.onsetDelay, end + p.onsetDelay, p.onsetResolution);
    PutKeepsOrder(held, release, Admitted(p, dose, adapted));
    PositiveKeepsOrder(queue);
  }

  /** A strictly increasing list of grid instants climbs at least one grid step per entry. */
  lemma {:induction false} GridClimb(q: seq<Onset>, resolution: real, low: int)
    requires resolution > 0.0 && q != [] && Increasing(q)
    requires forall o :: o in q ==> GridPoint(o.releaseAt, resolution)
    requires GridInstant(low, resolution) <= q[0].releaseAt
    ensures GridInstant(low + |q| - 1, resolution) <= q[|q| - 1].releaseAt
  {
    hide GridInstant;
    if |q| > 1 {
      var init, last := q[..|q| - 1], q[|q| - 1];
      GridClimb(init, resolution, low);
      assert last in q;
      var k :| last.releaseAt == GridInstant(k, resolution);
      assert init[|init| - 1].releaseAt < last.releaseAt;
      GridOrder(low + |q| - 2, k, resolution);
      GridOrder(k, low + |q| - 1, resolution);
    }
  }

  lemma DivideSum(a: real, b: real, c: real)
    requires c > 0.0
    ensures (a + b) / c == a / c + b / c
  {
    var x, y, z := a / c, b / c, (a + b) / c;
    assert x * c == a && y * c == b && z * c == a + b;
    assert (x + y) * c == z * c;
    if x + y < z {
      Scale(x + y, z, c);
    } else if x + y > z {
      Scale(z, x + y, c);
    }
  }

  /** However small the steps, the queue of a region holds at most one entry more than the
      delay spans grid steps, and no more than it spans when the step ends on the grid. */
  lemma QueueIsShort(p: Params, t: real, q: seq<Onset>)
    requires Sensible(p) && p.onsetResolution > 0.0
    requires Increasing(q) && QueueWithin(p, t, q)
    ensures |q| <= Ceiling(p.onsetDelay / p.onsetResolution) + 1
    ensures GridPoint(t, p.onsetResolution) && (forall o :: o in q ==> t < o.releaseAt) ==>
              |q| <= Ceiling(p.onsetDelay / p.onsetResolution)
  {
    hide GridInstant, Ceiling, Increasing;
    var res := p.onsetResolution;
    NoSteps(p);
    if q != [] {
      assert q[0] in q && q[|q| - 1] in q;
      var first :| q[0].releaseAt == GridInstant(first, res);
      CeilingIsFirst(t, res, first);
      GridOrder(first, Ceiling(t / res), res);
      GridClimb(q, res, Ceiling(t / res));
      ClimbIsBounded(p, t, Ceiling(t / res) + |q| - 1);
      if GridPoint(t, res) && forall o :: o in q ==> t < o.releaseAt {
        var k :| t == GridInstant(k, res);
        GridOrder(k, first, res);
        GridOrder(first, k + 1, res);
        GridClimb(q, res, k + 1);
        ClimbIsBounded(p, t, k + |q|);
        CeilingIsFirst(t, res, k);
      }
    }
  }

  lemma NoSteps(p: Params)
    requires Sensible(p) && p.onsetResolution > 0.0
    ensures Ceiling(p.onsetDelay / p.onsetResolution) >= 0
  {
    assert p.onsetDelay / p.onsetResolution >= 0.0;
  }

  lemma ClimbIsBounded(p: Params, t: real, top: int)
    requires Sensible(p) && p.onsetResolution > 0.0
    requires GridInstant(top, p.onsetResolution) <= OnsetInstant(t + p.onsetDelay, p.onsetResolution)
    ensures top <= Ceiling(t / p.onsetResolution) + Ceiling(p.onsetDelay / p.onsetResolution)
  {
    hide GridInstant;
    var res := p.onsetResolution;
    GridOrder(Ceiling((t + p.onsetDelay) / res), top, res);
    DivideSum(t, p.onsetDelay, res);
  }

  // ----- whole runs -----

  const NEVER_SORE := Soreness(map[], map[])

  /** From rest, over any run: the body stays sound and every queue stays within its window. */
  lemma {:induction false} RunStaysSound(p: Params, t: real, run: seq<Interval>, site: Site)
    requires Sensible(p) && p.onsetResolution > 0.0 && t >= 0.0
    requires forall k :: 0 <= k < |run| ==> Plausible(run[k])
    ensures var b := After(p, TimedSoreness(t, NEVER_SORE), run);
            && b.t >= 0.0
            && SoundSoreness(b.s)
            && SoundRegion(RegionOf(b.s, site))
            && QueueWithin(p, b.t, RegionOf(b.s, site).pending)
  {
    hide StepRegion, SoundRegion, Plausible, QueueWithin;
    if run == [] {
      RestedIsSound();
      NothingWaits(p, t);
    } else {
      var init, i := run[..|run| - 1], run[|run| - 1];
      RunStaysSound(p, t, init, site);
      var b := After(p, TimedSoreness(t, NEVER_SORE), init);
      TakesTime(i);
      OneStepStaysSound(p, b, i, site);
    }
  }

  lemma NothingWaits(p: Params, t: real)
    ensures QueueWithin(p, t, RESTED.pending)
  {
  }

  lemma OneStepStaysSound(p: Params, b: TimedSoreness, i: Interval, site: Site)
    requires Sensible(p) && p.onsetResolution > 0.0 && Plausible(i) && b.t >= 0.0
    requires SoundSoreness(b.s) && SoundRegion(RegionOf(b.s, site)) && QueueWithin(p, b.t, RegionOf(b.s, site).pending)
    ensures var s := Advanced(p, b.t, i, b.s);
            && SoundSoreness(s)
            && SoundRegion(RegionOf(s, site))
            && QueueWithin(p, b.t + i.dt, RegionOf(s, site).pending)
  {
    hide StepRegion, QueueWithin, Dose, NewAdaptation, NewRegions;
    ChannelStaysSound(p, b.t, i, b.s);
    if i.dt != 0.0 {
      SitesAreIndependent(p, b.t, i, b.s, site);
      StepKeepsQueueWithin(p, b.t, i, Dose(p, i, site), AdaptationOf(b.s, site, i.activity), RegionOf(b.s, site));
    }
  }

  /** The bound of the queue over every run from rest, for every step size. */
  lemma QueueStaysShort(p: Params, t: real, run: seq<Interval>, site: Site)
    requires Sensible(p) && p.onsetResolution > 0.0 && t >= 0.0
    requires forall k :: 0 <= k < |run| ==> Plausible(run[k])
    ensures |RegionOf(After(p, TimedSoreness(t, NEVER_SORE), run).s, site).pending| <= Ceiling(p.onsetDelay / p.onsetResolution) + 1
  {
    RunStaysSound(p, t, run, site);
    var b := After(p, TimedSoreness(t, NEVER_SORE), run);
    QueueIsShort(p, b.t, RegionOf(b.s, site).pending);
  }

  // ----- exactly how long -----

  /** The first grid instant after both `t` and the delay: nothing is released before the one, and
      nothing dosed from hour zero on before the other. */
  function First(p: Params, t: real): int
    requires p.onsetResolution > 0.0
  {
    var now, delay := (t / p.onsetResolution).Floor, (p.onsetDelay / p.onsetResolution).Floor;
    1 + if now < delay then delay else now
  }

  /** The grid instants from there up to the release of damage dosed at `t`. */
  function Room(p: Params, t: real): int
    requires p.onsetResolution > 0.0
  {
    if t <= 0.0 then 0 else Ceiling((t + p.onsetDelay) / p.onsetResolution) - First(p, t) + 1
  }

  /** Damage leaves a mark: the gate has a grid and a delay, and no adaptation absorbs a whole dose. */
  predicate Marking(p: Params) {
    Sensible(p) && p.onsetResolution > 0.0 && p.onsetDelay > 0.0 && p.damageRate > 0.0 && p.maxReduction < 1.0
  }

  /** Steps of any length up to the integration step, under any loads, with the decays a step of
      that length has. */
  ghost predicate IsRun(run: seq<Interval>, h: real, resolution: real -> real, bout: real -> real) {
    forall k :: 0 <= k < |run| ==>
      && Plausible(run[k]) && run[k].dt <= h
      && run[k].resolutionDecay == resolution(run[k].dt) && run[k].adaptationDecay == bout(run[k].dt)
  }

  ghost predicate AreDecays(resolution: real -> real, bout: real -> real) {
    forall dt :: dt >= 0.0 ==> 0.0 < resolution(dt) <= 1.0 && 0.0 < bout(dt) <= 1.0
  }

  /** What waits in a region after a run from rest. */
  function Waiting(p: Params, start: real, run: seq<Interval>, site: Site): seq<Onset>
    requires Sensible(p)
  {
    RegionOf(After(p, TimedSoreness(start, NEVER_SORE), run).s, site).pending
  }

  /** What waits is not due, and was dosed after hour zero. */
  ghost predicate Ahead(p: Params, q: seq<Onset>, t: real) {
    forall o :: o in q ==> t < o.releaseAt && 0.0 < t && p.onsetDelay < o.releaseAt
  }

  lemma StepIsAhead(p: Params, t: real, i: Interval, dose: real, adapted: real, region: Region)
    requires Sensible(p) && p.onsetDelay > 0.0 && Increasing(region.pending)
    requires t >= 0.0 && i.dt > 0.0 && Ahead(p, region.pending, t)
    ensures Ahead(p, StepRegion(p, t, i, dose, adapted, region).pending, t + i.dt)
  {
    hide Flowed, Felt, Chain, Due, NewQueue, Positive, OnsetInstant, Transferred, Stages, Increasing;
    WhatWaits(p, t + i.dt, dose, adapted, region.pending);
  }

  lemma {:induction false} RunIsAhead(p: Params, start: real, run: seq<Interval>, site: Site)
    requires Sensible(p) && p.onsetResolution > 0.0 && p.onsetDelay > 0.0 && start >= 0.0
    requires forall k :: 0 <= k < |run| ==> Plausible(run[k])
    ensures Ahead(p, Waiting(p, start, run, site), Time(start, run))
  {
    hide StepRegion, Plausible, Dose, NewAdaptation, NewRegions, Ahead;
    if run == [] {
      NothingIsAhead(p, start);
    } else {
      var init, i := run[..|run| - 1], run[|run| - 1];
      RunIsAhead(p, start, init, site);
      RunStaysSound(p, start, init, site);
      var b := After(p, TimedSoreness(start, NEVER_SORE), init);
      TimeOfRun(p, TimedSoreness(start, NEVER_SORE), init);
      if i.dt != 0.0 {
        SitesAreIndependent(p, b.t, i, b.s, site);
        TakesTime(i);
        StepIsAhead(p, b.t, i, Dose(p, i, site), AdaptationOf(b.s, site, i.activity), RegionOf(b.s, site));
      }
    }
  }

  lemma NothingIsAhead(p: Params, t: real)
    ensures Ahead(p, RESTED.pending, t)
  {
  }

  lemma TakesTime(i: Interval)
    requires Plausible(i)
    ensures i.dt >= 0.0
  {
  }

  lemma QueueFitsRoom(p: Params, t: real, q: seq<Onset>)
    requires Sensible(p) && p.onsetResolution > 0.0 && p.onsetDelay > 0.0
    requires Increasing(q) && QueueWithin(p, t, q) && Ahead(p, q, t)
    ensures |q| <= Room(p, t)
  {
    hide GridInstant, Ceiling, Increasing;
    var res := p.onsetResolution;
    if q != [] {
      assert q[0] in q && q[|q| - 1] in q;
      var first :| q[0].releaseAt == GridInstant(first, res);
      FloorIsLast(t, res, first);
      FloorIsLast(p.onsetDelay, res, first);
      GridOrder(first, First(p, t), res);
      GridClimb(q, res, First(p, t));
      GridOrder(Ceiling((t + p.onsetDelay) / res), First(p, t) + |q| - 1, res);
    } else if t > 0.0 {
      RoomIsPositive(p, t);
    }
  }

  lemma FloorIsLast(t: real, resolution: real, k: int)
    requires resolution > 0.0
    ensures k <= (t / resolution).Floor <==> GridInstant(k, resolution) <= t
  {
    var x := t / resolution;
    assert x * resolution == t;
    if x < k as real {
      Scale(x, k as real, resolution);
    } else if k as real < x {
      Scale(k as real, x, resolution);
    }
  }

  lemma RoomIsPositive(p: Params, t: real)
    requires Sensible(p) && p.onsetResolution > 0.0 && p.onsetDelay > 0.0 && t > 0.0
    ensures Room(p, t) > 0
  {
    hide GridInstant, Ceiling;
    var res, last := p.onsetResolution, First(p, t) - 1;
    FloorIsLast(t, res, last);
    FloorIsLast(p.onsetDelay, res, last);
    CeilingIsFirst(t + p.onsetDelay, res, last);
  }

  // ----- a run that fills the room -----

  /** A step of the given load at every site. */
  function Work(dt: real, load: real, resolution: real -> real, bout: real -> real): Interval {
    Interval(dt, resolution(dt), bout(dt), "eccentric work", load, site => load)
  }

  function Rests(n: nat, dt: real, resolution: real -> real, bout: real -> real): (run: seq<Interval>)
    ensures |run| == n
  {
    if n == 0 then [] else Rests(n - 1, dt, resolution, bout) + [Work(dt, 0.0, resolution, bout)]
  }

  /** The least number of equal steps no longer than `h`, and how long each of them is. */
  function Count(gap: real, h: real): (m: nat)
    requires gap > 0.0 && h > 0.0
    ensures m >= 1
  {
    Counted(gap, h);
    Ceiling(gap / h)
  }

  function Share(gap: real, h: real): real
    requires gap > 0.0 && h > 0.0
  {
    gap / Count(gap, h) as real
  }

  lemma Counted(gap: real, h: real)
    requires gap > 0.0 && h > 0.0
    ensures Ceiling(gap / h) >= 1
  {
    assert gap / h > 0.0;
  }

  lemma SharesAddUp(gap: real, h: real)
    requires gap > 0.0 && h > 0.0
    ensures 0.0 < Share(gap, h) <= h
    ensures (Count(gap, h) - 1) as real * Share(gap, h) + Share(gap, h) == gap
  {
    var x, m := gap / h, Count(gap, h) as real;
    var dt := gap / m;
    assert x * h == gap && m * dt == gap && x <= m;
    if dt > h {
      Scale(h, dt, m);
      ProductIsNonNegative(m - x, h);
    }
  }

  /** Rest, and then full eccentric work, in equal steps over a gap. */
  function Bout(gap: real, h: real, resolution: real -> real, bout: real -> real): seq<Interval>
    requires gap > 0.0 && h > 0.0
  {
    Rests(Count(gap, h) - 1, Share(gap, h), resolution, bout) + [Work(Share(gap, h), 1.0, resolution, bout)]
  }

  ghost predicate Climbing(start: real, ends: seq<real>) {
    && (ends != [] ==> start < ends[0])
    && forall k :: 0 < k < |ends| ==> ends[k - 1] < ends[k]
  }

  function LastOf(start: real, ends: seq<real>): real {
    if ends == [] then start else ends[|ends| - 1]
  }

  /** The part without the last end climbs too, and leaves a gap before it. */
  lemma InitClimbs(start: real, ends: seq<real>)
    requires ends != [] && Climbing(start, ends)
    ensures Climbing(start, ends[..|ends| - 1])
    ensures LastOf(start, ends[..|ends| - 1]) < ends[|ends| - 1]
  {
    var n := |ends| - 1;
    assert n > 0 ==> ends[n - 1] < ends[n];
  }

  /** Bouts of work that end at the given instants. */
  ghost function Efforts(start: real, ends: seq<real>, h: real, resolution: real -> real, bout: real -> real): seq<Interval>
    requires Climbing(start, ends) && h > 0.0
  {
    if ends == [] then []
    else
      var init := ends[..|ends| - 1];
      InitClimbs(start, ends);
      Efforts(start, init, h, resolution, bout) + Bout(ends[|ends| - 1] - LastOf(start, init), h, resolution, bout)
  }

  lemma WorkIsPlausible(dt: real, resolution: real -> real, bout: real -> real)
    requires dt > 0.0 && AreDecays(resolution, bout)
    ensures Plausible(Work(dt, 1.0, resolution, bout))
  {
  }

  lemma Extended(run: seq<Interval>, i: Interval, h: real, resolution: real -> real, bout: real -> real)
    requires IsRun(run, h, resolution, bout) && Plausible(i) && i.dt <= h
    requires i.resolutionDecay == resolution(i.dt) && i.adaptationDecay == bout(i.dt)
    ensures IsRun(run + [i], h, resolution, bout)
    ensures forall start :: Time(start, run + [i]) == Time(start, run) + i.dt
    ensures (run + [i])[..|run|] == run
  {
    assert (run + [i])[..|run|] == run;
  }

  /** A queue that is not due is the same after rest. */
  lemma {:induction false} RestsKeep(p: Params, start: real, run: seq<Interval>, n: nat, dt: real, site: Site,
                                     h: real, resolution: real -> real, bout: real -> real)
    requires Marking(p) && AreDecays(resolution, bout) && IsRun(run, h, resolution, bout) && start >= 0.0 && 0.0 < dt <= h
    requires forall o :: o in Waiting(p, start, run, site) ==> Time(start, run) + n as real * dt < o.releaseAt
    ensures var all := run + Rests(n, dt, resolution, bout);
            && IsRun(all, h, resolution, bout)
            && Time(start, all) == Time(start, run) + n as real * dt
            && Waiting(p, start, all, site) == Waiting(p, start, run, site)
  {
    hide Waiting, Time, IsRun;
    if n == 0 {
      assert run + Rests(0, dt, resolution, bout) == run;
    } else {
      var init, i := run + Rests(n - 1, dt, resolution, bout), Work(dt, 0.0, resolution, bout);
      RestsKeep(p, start, run, n - 1, dt, site, h, resolution, bout);
      Extended(init, i, h, resolution, bout);
      assert run + Rests(n, dt, resolution, bout) == init + [i];
      RestKeeps(p, start, init, i, site, h, resolution, bout);
    }
  }

  lemma RestKeeps(p: Params, start: real, run: seq<Interval>, i: Interval, site: Site,
                  h: real, resolution: real -> real, bout: real -> real)
    requires Marking(p) && IsRun(run, h, resolution, bout) && start >= 0.0
    requires i.intensity(site) == 0.0 && i.eccentric == 0.0 && i.dt > 0.0
    requires forall o :: o in Waiting(p, start, run, site) ==> Time(start, run) + i.dt < o.releaseAt
    ensures Waiting(p, start, run + [i], site) == Waiting(p, start, run, site)
  {
    hide StepAt, Advanced, After, Dose, Waiting, SoundSoreness, IsRun, RegionOf;
    WaitingAfter(p, start, run, i, site);
    RunIsSound(p, start, run, site, h, resolution, bout);
    TimeOfRun(p, TimedSoreness(start, NEVER_SORE), run);
    RestAddsNothing(p, After(p, TimedSoreness(start, NEVER_SORE), run), i, site);
  }

  lemma RestAddsNothing(p: Params, b: TimedSoreness, i: Interval, site: Site)
    requires Marking(p) && i.intensity(site) == 0.0 && i.eccentric == 0.0
    requires forall o :: o in RegionOf(b.s, site).pending ==> b.t + i.dt < o.releaseAt && o.amount > 0.0
    ensures StepAt(p, b.t, i, b.s, site).pending == RegionOf(b.s, site).pending
  {
    hide Held, Positive, OnsetInstant, Flowed, Felt, Chain, Due, Transferred, RegionOf;
    assert Dose(p, i, site) == 0.0;
    AllHeld(RegionOf(b.s, site).pending, b.t + i.dt);
    AllPositive(RegionOf(b.s, site).pending);
  }

  function ReleaseOf(p: Params, end: real): real {
    OnsetInstant(end + p.onsetDelay, p.onsetResolution)
  }

  /** Every bout left an entry of its own, and none is due before the last has ended. */
  ghost predicate Separate(p: Params, ends: seq<real>) {
    && (forall k :: 0 < k < |ends| ==> ReleaseOf(p, ends[k - 1]) < ReleaseOf(p, ends[k]))
    && (ends != [] ==> forall k :: 0 <= k < |ends| ==> ends[|ends| - 1] < ReleaseOf(p, ends[k]))
  }

  /** The queue has one entry for each bout, released when its damage is. */
  ghost predicate Holds(p: Params, q: seq<Onset>, ends: seq<real>) {
    |q| == |ends| && forall k :: 0 <= k < |q| ==> q[k].releaseAt == ReleaseOf(p, ends[k])
  }

  /** Bouts are a run, end when they should, and fill the queue. */
  ghost predicate Fills(p: Params, start: real, run: seq<Interval>, ends: seq<real>, site: Site,
                        h: real, resolution: real -> real, bout: real -> real)
    requires Sensible(p)
  {
    && IsRun(run, h, resolution, bout)
    && Time(start, run) == LastOf(start, ends)
    && Holds(p, Waiting(p, start, run, site), ends)
  }

  lemma {:induction false} EffortsFill(p: Params, start: real, ends: seq<real>, site: Site,
                                       h: real, resolution: real -> real, bout: real -> real)
    requires Marking(p) && AreDecays(resolution, bout) && h > 0.0 && start >= 0.0
    requires Climbing(start, ends) && Separate(p, ends)
    ensures Fills(p, start, Efforts(start, ends, h, resolution, bout), ends, site, h, resolution, bout)
  {
    hide ReleaseOf, Waiting, Fills;
    if ends == [] {
      NoEffort(p, start, site, h, resolution, bout);
    } else {
      var n := |ends| - 1;
      var init := ends[..n];
      InitClimbs(start, ends);
      assert forall k :: 0 <= k < n ==> init[k] == ends[k];
      assert n > 0 ==> ends[n - 1] < ends[n];
      EffortsFill(p, start, init, site, h, resolution, bout);
      OneMoreEffort(p, start, Efforts(start, init, h, resolution, bout), ends, site, h, resolution, bout);
    }
  }

  lemma NoEffort(p: Params, start: real, site: Site, h: real, resolution: real -> real, bout: real -> real)
    requires Sensible(p)
    ensures Fills(p, start, [], [], site, h, resolution, bout)
  {
  }

  lemma OneMoreEffort(p: Params, start: real, run: seq<Interval>, ends: seq<real>, site: Site,
                      h: real, resolution: real -> real, bout: real -> real)
    requires Marking(p) && AreDecays(resolution, bout) && h > 0.0 && start >= 0.0
    requires ends != [] && Climbing(start, ends) && Separate(p, ends)
    requires Fills(p, start, run, ends[..|ends| - 1], site, h, resolution, bout)
    ensures var gap := ends[|ends| - 1] - LastOf(start, ends[..|ends| - 1]);
            gap > 0.0 && Fills(p, start, run + Bout(gap, h, resolution, bout), ends, site, h, resolution, bout)
  {
    hide ReleaseOf, IsRun, Time, Waiting, Rests, Count, Share, Holds, Separate, AreDecays;
    var n := |ends| - 1;
    var init, q := ends[..n], Waiting(p, start, run, site);
    InitClimbs(start, ends);
    var gap := ends[n] - LastOf(start, init);
    var m, dt := Count(gap, h) - 1, Share(gap, h);
    SharesAddUp(gap, h);
    HeldUntil(p, q, ends);
    assert Time(start, run) + m as real * dt == ends[n] - dt;
    WorkIsPlausible(dt, resolution, bout);
    RestsKeep(p, start, run, m, dt, site, h, resolution, bout);
    var rested, i := run + Rests(m, dt, resolution, bout), Work(dt, 1.0, resolution, bout);
    assert run + Bout(gap, h, resolution, bout) == rested + [i];
    Extended(rested, i, h, resolution, bout);
    EffortAddsOne(p, start, rested, i, site, ends[n], h, resolution, bout);
    OneMoreHeld(p, q, Waiting(p, start, rested + [i], site), ends);
  }

  lemma OneMoreHeld(p: Params, q: seq<Onset>, r: seq<Onset>, ends: seq<real>)
    requires ends != [] && Holds(p, q, ends[..|ends| - 1])
    requires |r| == |q| + 1 && r[..|q|] == q && r[|q|].releaseAt == ReleaseOf(p, ends[|ends| - 1])
    ensures Holds(p, r, ends)
  {
    hide ReleaseOf;
    forall k | 0 <= k < |r| ensures r[k].releaseAt == ReleaseOf(p, ends[k]) {
      if k < |q| {
        assert r[k] == r[..|q|][k] == q[k] && ends[..|ends| - 1][k] == ends[k];
      }
    }
  }

  lemma HeldUntil(p: Params, q: seq<Onset>, ends: seq<real>)
    requires Separate(p, ends) && ends != [] && Holds(p, q, ends[..|ends| - 1])
    ensures forall o :: o in q ==> ends[|ends| - 1] < o.releaseAt < ReleaseOf(p, ends[|ends| - 1])
  {
    hide ReleaseOf;
    var n := |ends| - 1;
    forall o | o in q ensures ends[n] < o.releaseAt < ReleaseOf(p, ends[n]) {
      var k :| 0 <= k < n && q[k] == o;
      ReleasesClimb(p, ends, k, n);
    }
  }

  lemma RunIsSound(p: Params, start: real, run: seq<Interval>, site: Site, h: real, resolution: real -> real, bout: real -> real)
    requires Marking(p) && IsRun(run, h, resolution, bout) && start >= 0.0
    ensures SoundSoreness(After(p, TimedSoreness(start, NEVER_SORE), run).s)
    ensures forall o :: o in Waiting(p, start, run, site) ==> o.amount > 0.0
  {
    RunStaysSound(p, start, run, site);
  }

  lemma WaitingAfter(p: Params, start: real, run: seq<Interval>, i: Interval, site: Site)
    requires Sensible(p) && i.dt != 0.0
    ensures var b := After(p, TimedSoreness(start, NEVER_SORE), run);
            && Waiting(p, start, run + [i], site) == StepAt(p, b.t, i, b.s, site).pending
            && Waiting(p, start, run, site) == RegionOf(b.s, site).pending
  {
    var b := After(p, TimedSoreness(start, NEVER_SORE), run);
    assert (run + [i])[..|run|] == run;
    SitesAreIndependent(p, b.t, i, b.s, site);
  }

  lemma ReleasesClimb(p: Params, ends: seq<real>, j: nat, k: nat)
    requires Separate(p, ends) && j < k < |ends|
    ensures ReleaseOf(p, ends[j]) < ReleaseOf(p, ends[k])
  {
    if j + 1 < k {
      ReleasesClimb(p, ends, j, k - 1);
    }
    assert ReleaseOf(p, ends[k - 1]) < ReleaseOf(p, ends[k]);
  }

  lemma {:induction false} AllHeld(q: seq<Onset>, end: real)
    requires forall o :: o in q ==> o.releaseAt > end
    ensures Held(q, end) == q
  {
    if q != [] {
      assert q == q[..|q| - 1] + [q[|q| - 1]];
      AllHeld(q[..|q| - 1], end);
    }
  }

  lemma {:induction false} AllPositive(q: seq<Onset>)
    requires forall o :: o in q ==> o.amount > 0.0
    ensures Positive(q) == q
  {
    if q != [] {
      assert q == q[..|q| - 1] + [q[|q| - 1]];
      AllPositive(q[..|q| - 1]);
    }
  }

  lemma EffortAddsOne(p: Params, start: real, run: seq<Interval>, i: Interval, site: Site, end: real,
                      h: real, resolution: real -> real, bout: real -> real)
    requires Marking(p) && IsRun(run, h, resolution, bout) && start >= 0.0
    requires i.intensity(site) == 1.0 && i.eccentric == 1.0 && i.dt > 0.0 && Time(start, run) + i.dt == end
    requires forall o :: o in Waiting(p, start, run, site) ==> end < o.releaseAt < ReleaseOf(p, end)
    ensures var q, r := Waiting(p, start, run, site), Waiting(p, start, run + [i], site);
            |r| == |q| + 1 && r[..|q|] == q && r[|q|].releaseAt == ReleaseOf(p, end)
  {
    hide StepAt, Advanced, After, Dose, Waiting, SoundSoreness, IsRun, RegionOf, ReleaseOf;
    WaitingAfter(p, start, run, i, site);
    RunIsSound(p, start, run, site, h, resolution, bout);
    TimeOfRun(p, TimedSoreness(start, NEVER_SORE), run);
    DoseAddsOne(p, After(p, TimedSoreness(start, NEVER_SORE), run), i, site, end);
  }

  lemma DoseAddsOne(p: Params, b: TimedSoreness, i: Interval, site: Site, end: real)
    requires Marking(p) && SoundSoreness(b.s)
    requires i.intensity(site) == 1.0 && i.eccentric == 1.0 && i.dt > 0.0 && b.t + i.dt == end
    requires forall o :: o in RegionOf(b.s, site).pending ==> end < o.releaseAt < ReleaseOf(p, end) && o.amount > 0.0
    ensures var q, r := RegionOf(b.s, site).pending, StepAt(p, b.t, i, b.s, site).pending;
            |r| == |q| + 1 && r[..|q|] == q && r[|q|].releaseAt == ReleaseOf(p, end)
  {
    hide Held, Positive, OnsetInstant, SoundRegion, Flowed, Felt, Chain, Due, Transferred;
    var q, adapted := RegionOf(b.s, site).pending, AdaptationOf(b.s, site, i.activity);
    var dose := Dose(p, i, site);
    DoseLeavesAMark(p, dose, i.dt, adapted);
    AllHeld(q, end);
    var queue := NewQueue(p, end, dose, adapted, q);
    assert q != [] ==> q[|q| - 1] in q;
    assert queue == q + [Onset(ReleaseOf(p, end), Admitted(p, dose, adapted))];
    AllPositive(queue);
  }

  lemma DoseLeavesAMark(p: Params, dose: real, dt: real, adapted: real)
    requires Marking(p) && dt > 0.0 && dose == p.damageRate * 1.0 * 1.0 * dt && 0.0 <= adapted <= 1.0
    ensures dose > 0.0 && Admitted(p, dose, adapted) > 0.0
  {
    Scale(0.0, p.damageRate, dt);
    var kept := 1.0 - p.maxReduction * adapted;
    ProductIsNonNegative(p.maxReduction, 1.0 - adapted);
    Scale(0.0, kept, dose);
  }

  /** The grid instants there is room for, counted from zero. */
  function GridAfter(p: Params, t: real, k: int): real
    requires Marking(p)
  {
    GridInstant(First(p, t) + k, p.onsetResolution)
  }

  lemma GridAfterClimbs(p: Params, t: real, k: int)
    requires Marking(p)
    ensures GridAfter(p, t, k - 1) < GridAfter(p, t, k)
    ensures k >= 0 ==> t < GridAfter(p, t, k) && p.onsetDelay < GridAfter(p, t, k)
    ensures ReleaseOf(p, GridAfter(p, t, k) - p.onsetDelay) == GridAfter(p, t, k)
  {
    hide GridInstant;
    var res, at := p.onsetResolution, First(p, t) + k;
    GridOrder(at - 1, at, res);
    FloorIsLast(t, res, at);
    FloorIsLast(p.onsetDelay, res, at);
    GridIsItsOwnRelease(at, res);
  }

  lemma GridIsItsOwnRelease(k: int, resolution: real)
    requires resolution > 0.0
    ensures OnsetInstant(GridInstant(k, resolution), resolution) == GridInstant(k, resolution)
  {
    hide GridInstant;
    var at := GridInstant(k, resolution);
    CeilingIsFirst(at, resolution, k);
    CeilingIsFirst(at, resolution, k - 1);
    GridOrder(k - 1, k, resolution);
  }

  lemma RoomReachesTheRelease(p: Params, t: real)
    requires Marking(p) && t > 0.0
    ensures ReleaseOf(p, t) == GridAfter(p, t, Room(p, t) - 1)
    ensures GridAfter(p, t, Room(p, t) - 2) - p.onsetDelay < t
  {
    hide GridInstant, Ceiling;
    CeilingIsFirst(t + p.onsetDelay, p.onsetResolution, Ceiling((t + p.onsetDelay) / p.onsetResolution) - 1);
  }

  /** The ends of the bouts that fill the room at `t`: each is one delay before a grid instant,
      except the last. */
  function FillingEnd(p: Params, t: real, k: int): real
    requires Marking(p)
  {
    if k == Room(p, t) - 1 then t else GridAfter(p, t, k) - p.onsetDelay
  }

  function FillingEnds(p: Params, t: real): (ends: seq<real>)
    requires Marking(p) && Room(p, t) > 0
    ensures |ends| == Room(p, t)
  {
    seq(Room(p, t), k => FillingEnd(p, t, k))
  }

  lemma FillingEndFits(p: Params, t: real, k: int)
    requires Marking(p) && t > 0.0 && 0 <= k < Room(p, t)
    ensures ReleaseOf(p, FillingEnd(p, t, k)) == GridAfter(p, t, k)
    ensures FillingEnd(p, t, k - 1) < FillingEnd(p, t, k) && 0.0 < FillingEnd(p, t, k)
    ensures GridAfter(p, t, k - 1) < GridAfter(p, t, k) && t < GridAfter(p, t, k)
  {
    hide GridAfter, Room, ReleaseOf;
    GridAfterClimbs(p, t, k);
    RoomReachesTheRelease(p, t);
  }

  lemma FillingEndsFit(p: Params, t: real)
    requires Marking(p) && t > 0.0 && Room(p, t) > 0
    ensures Climbing(0.0, FillingEnds(p, t)) && Separate(p, FillingEnds(p, t))
    ensures LastOf(0.0, FillingEnds(p, t)) == t
  {
    hide GridAfter, Room, ReleaseOf;
    var ends := FillingEnds(p, t);
    forall k | 0 <= k < |ends|
      ensures ReleaseOf(p, ends[k]) == GridAfter(p, t, k) && ends[|ends| - 1] < ReleaseOf(p, ends[k]) && 0.0 < ends[k]
    {
      FillingEndFits(p, t, k);
    }
    forall k | 0 < k < |ends|
      ensures ends[k - 1] < ends[k] && ReleaseOf(p, ends[k - 1]) < ReleaseOf(p, ends[k])
    {
      FillingEndFits(p, t, k);
    }
  }

  /** Some run from rest at hour zero fills the room. */
  lemma FillRoom(p: Params, t: real, site: Site, h: real, resolution: real -> real, bout: real -> real) returns (run: seq<Interval>)
    requires Marking(p) && AreDecays(resolution, bout) && h > 0.0 && t >= 0.0
    ensures IsRun(run, h, resolution, bout) && Time(0.0, run) == t && |Waiting(p, 0.0, run, site)| == Room(p, t)
  {
    hide Room, FillingEnds, Efforts, Separate;
    if t == 0.0 {
      run := [];
      NoRoomAtZero(p, site);
    } else {
      RoomIsPositive(p, t);
      FillingEndsFit(p, t);
      EffortsFill(p, 0.0, FillingEnds(p, t), site, h, resolution, bout);
      run := Efforts(0.0, FillingEnds(p, t), h, resolution, bout);
    }
  }

  lemma NoRoomAtZero(p: Params, site: Site)
    requires Marking(p)
    ensures |Waiting(p, 0.0, [], site)| == Room(p, 0.0)
  {
  }

  /** A run within the life of a body: from hour zero or later to `t`. */
  ghost predicate Reaches(start: real, run: seq<Interval>, t: real, h: real, resolution: real -> real, bout: real -> real) {
    start >= 0.0 && IsRun(run, h, resolution, bout) && Time(start, run) == t
  }

  /** The longest a queue can be at `t`, over every run from rest and however short the integration
      step: never more than the grid instants it can wait for, and as many for some run. */
  lemma RoomIsTheLongestQueue(p: Params, t: real, site: Site, h: real, resolution: real -> real, bout: real -> real)
    requires Marking(p) && AreDecays(resolution, bout) && h > 0.0 && t >= 0.0
    ensures forall start, run :: Reaches(start, run, t, h, resolution, bout) ==> |Waiting(p, start, run, site)| <= Room(p, t)
    ensures exists start, run :: Reaches(start, run, t, h, resolution, bout) && |Waiting(p, start, run, site)| == Room(p, t)
  {
    hide Room, Time, QueueWithin, Increasing, SoundSoreness, Ahead;
    forall start, run | Reaches(start, run, t, h, resolution, bout) ensures |Waiting(p, start, run, site)| <= Room(p, t) {
      RunStaysSound(p, start, run, site);
      RunIsAhead(p, start, run, site);
      TimeOfRun(p, TimedSoreness(start, NEVER_SORE), run);
      QueueFitsRoom(p, t, Waiting(p, start, run, site));
    }
    var run := FillRoom(p, t, site, h, resolution, bout);
    assert Reaches(0.0, run, t, h, resolution, bout);
  }

  /** The length the tuning file promises: the delay in grid steps. */
  ghost predicate AsDocumented(p: Params, q: seq<Onset>)
    requires p.onsetResolution > 0.0
  {
    |q| as real <= p.onsetDelay / p.onsetResolution
  }

  /** No time has passed; or damage dosed now is released within twice the whole grid steps of the
      delay; or both now and that release, without rounding, are instants of the grid. */
  ghost predicate IsQuietInstant(p: Params, t: real)
    requires p.onsetResolution > 0.0
  {
    || t == 0.0
    || t + p.onsetDelay <= GridInstant(2 * (p.onsetDelay / p.onsetResolution).Floor, p.onsetResolution)
    || (GridPoint(t, p.onsetResolution) && GridPoint(t + p.onsetDelay, p.onsetResolution))
  }

  /** The promise is kept by every run that ends at `t` exactly at the quiet instants. */
  lemma DocumentedBoundHoldsExactly(p: Params, t: real, site: Site, h: real, resolution: real -> real, bout: real -> real)
    requires Marking(p) && AreDecays(resolution, bout) && h > 0.0 && t >= 0.0
    ensures (forall start, run :: Reaches(start, run, t, h, resolution, bout) ==> AsDocumented(p, Waiting(p, start, run, site)))
       <==> IsQuietInstant(p, t)
  {
    hide Waiting, Reaches, AreDecays, IsQuietInstant, Room;
    RoomIsTheLongestQueue(p, t, site, h, resolution, bout);
    RoomAsDocumented(p, t);
  }

  lemma RoomAsDocumented(p: Params, t: real)
    requires Marking(p) && t >= 0.0
    ensures Room(p, t) as real <= p.onsetDelay / p.onsetResolution <==> IsQuietInstant(p, t)
  {
    hide Ceiling, GridInstant, GridPoint;
    var res := p.onsetResolution;
    var now, delay, release := t / res, p.onsetDelay / res, (t + p.onsetDelay) / res;
    assert now >= 0.0 && delay >= 0.0;
    DivideSum(t, p.onsetDelay, res);
    WholeIsOnTheGrid(t, res);
    WholeIsOnTheGrid(t + p.onsetDelay, res);
    CeilingIsFirst(t + p.onsetDelay, res, 2 * delay.Floor);
  }

  lemma WholeIsOnTheGrid(x: real, resolution: real)
    requires resolution > 0.0
    ensures GridPoint(x, resolution) <==> (x / resolution).Floor as real == x / resolution
    ensures GridPoint(x, resolution) <==> Ceiling(x / resolution) as real == x / resolution
  {
    hide GridInstant;
    if k :| x == GridInstant(k, resolution) {
      GridIsWhole(x, resolution, k);
    }
    GridIsWhole(x, resolution, (x / resolution).Floor);
  }

  lemma GridIsWhole(x: real, resolution: real, k: int)
    requires resolution > 0.0
    ensures x == GridInstant(k, resolution) <==> x / resolution == k as real
  {
    var y := x / resolution;
    assert y * resolution == x;
    if y < k as real {
      Scale(y, k as real, resolution);
    } else if k as real < y {
      Scale(k as real, y, resolution);
    }
  }

  // ----- the canonical tuning -----

  /** The tuning and the step of `body-dynamics.yaml`. */
  const CANON := Params(3, 11.0, 12.0, 1.0, 0.55, 0.6, 0.8)

  function QuarterHour(resolution: real, bout: real): Interval {
    Interval(0.25, resolution, bout, "eccentric work", 1.0, site => 1.0)
  }

  function QuarterHours(resolution: real, bout: real, n: nat): seq<Interval> {
    seq(n, k => QuarterHour(resolution, bout))
  }

  /** Working without pause from rest, the queue gains an entry each hour until the first release. */
  ghost predicate Filled(q: seq<Onset>, n: nat) {
    && |q| == (n + 3) / 4
    && (forall o :: o in q ==> o.amount > 0.0)
    && (forall k :: 0 <= k < |q| ==> q[k].releaseAt == 13.0 + k as real)
  }

  /** Damage dosed in quarter hour `n` is released at hour 13 plus the whole hours before it. */
  lemma QuarterRelease(n: nat)
    ensures OnsetInstant(n as real * 0.25 + 0.25 + 12.0, 1.0) == 13.0 + (n / 4) as real
  {
    var m := n / 4;
    assert n == 4 * m || n == 4 * m + 1 || n == 4 * m + 2 || n == 4 * m + 3;
    var at := n as real * 0.25 + 0.25 + 12.0;
    assert at / 1.0 == at;
    assert Ceiling(at) == 13 + m;
  }

  lemma PutFills(q: seq<Onset>, n: nat, admitted: real)
    requires Filled(q, n) && admitted > 0.0
    ensures Filled(Put(q, 13.0 + (n / 4) as real, admitted), n + 1)
  {
    var m := n / 4;
    var queue := Put(q, 13.0 + m as real, admitted);
    if n % 4 == 0 {
      assert |q| == m;
      assert queue == q + [Onset(13.0 + m as real, admitted)];
    } else {
      var init, last := q[..|q| - 1], q[|q| - 1];
      assert q == init + [last] && last in q && |q| == m + 1;
      assert queue == init + [Onset(13.0 + m as real, last.amount + admitted)];
    }
  }

  lemma FillOneMore(q: seq<Onset>, n: nat, dose: real, adapted: real)
    requires Filled(q, n) && n <= 50 && dose > 0.0 && 0.0 <= adapted <= 1.0
    ensures Filled(Positive(NewQueue(CANON, n as real * 0.25 + 0.25, dose, adapted, q)), n + 1)
  {
    hide Positive, Held, Put, OnsetInstant;
    var end := n as real * 0.25 + 0.25;
    forall o | o in q ensures o.releaseAt > end {
      var k :| 0 <= k < |q| && q[k] == o;
    }
    AllHeld(q, end);
    assert 1.0 - 0.6 * adapted > 0.0;
    QuarterRelease(n);
    PutFills(q, n, Admitted(CANON, dose, adapted));
    AllPositive(NewQueue(CANON, end, dose, adapted, q));
  }

  lemma {:induction false} FillQueue(resolution: real, bout: real, n: nat)
    requires n <= 51 && 0.0 < resolution <= 1.0 && 0.0 < bout <= 1.0
    ensures After(CANON, TimedSoreness(0.0, NEVER_SORE), QuarterHours(resolution, bout, n)).t == n as real * 0.25
    ensures Filled(RegionOf(After(CANON, TimedSoreness(0.0, NEVER_SORE), QuarterHours(resolution, bout, n)).s, Legs).pending, n)
  {
    hide StepRegion, NewQueue, Filled, Dose, RegionOf, StepAt, Advanced, QueueWithin, SoundRegion, SoundSoreness;
    if n == 0 {
      NothingFilled(resolution, bout);
    } else {
      var i, init := QuarterHour(resolution, bout), QuarterHours(resolution, bout, n - 1);
      assert QuarterHours(resolution, bout, n)[..n - 1] == init && QuarterHours(resolution, bout, n)[n - 1] == i;
      FillQueue(resolution, bout, n - 1);
      RunStaysSound(CANON, 0.0, init, Legs);
      var b := After(CANON, TimedSoreness(0.0, NEVER_SORE), init);
      SitesAreIndependent(CANON, b.t, i, b.s, Legs);
      FillStep(b, i, n - 1);
    }
  }

  lemma NothingFilled(resolution: real, bout: real)
    ensures QuarterHours(resolution, bout, 0) == []
    ensures Filled(RegionOf(NEVER_SORE, Legs).pending, 0)
  {
  }

  lemma FillStep(b: TimedSoreness, i: Interval, n: nat)
    requires n <= 50 && i == QuarterHour(i.resolutionDecay, i.adaptationDecay) && b.t == n as real * 0.25 && SoundSoreness(b.s)
    requires Filled(RegionOf(b.s, Legs).pending, n)
    ensures Filled(StepAt(CANON, b.t, i, b.s, Legs).pending, n + 1)
  {
    hide NewQueue, Filled, Positive, SoundRegion;
    assert Dose(CANON, i, Legs) == 0.55 * 1.0 * 1.0 * 0.25;
    FillOneMore(RegionOf(b.s, Legs).pending, n, Dose(CANON, i, Legs), AdaptationOf(b.s, Legs, i.activity));
  }

  /** With the canonical tuning, 49 quarter hours of work leave 13 entries in the queue: one
      more than the delay divided by the grid step, and exactly the proved bound. */
  lemma DocumentedBoundIsExceeded(resolution: real, bout: real)
    requires 0.0 < resolution <= 1.0 && 0.0 < bout <= 1.0
    ensures var q := RegionOf(After(CANON, TimedSoreness(0.0, NEVER_SORE), QuarterHours(resolution, bout, 49)).s, Legs).pending;
            && |q| == 13
            && |q| as real > CANON.onsetDelay / CANON.onsetResolution
            && |q| == Ceiling(CANON.onsetDelay / CANON.onsetResolution) + 1
  {
    hide After, RegionOf, QuarterHours;
    FillQueue(resolution, bout, 49);
    assert CANON.onsetDelay / CANON.onsetResolution == 12.0;
  }

  /** With the canonical tuning the promise is kept up to hour twelve of the world, and after it at
      whole hours only. */
  lemma CanonicalBoundHoldsExactly(t: real, site: Site, h: real, resolution: real -> real, bout: real -> real)
    requires AreDecays(resolution, bout) && h > 0.0 && t >= 0.0
    ensures (forall start, run :: Reaches(start, run, t, h, resolution, bout) ==> |Waiting(CANON, start, run, site)| <= 12)
       <==> t <= 12.0 || t == t.Floor as real
  {
    hide Waiting, Reaches, AreDecays, IsQuietInstant, AsDocumented;
    DocumentedBoundHoldsExactly(CANON, t, site, h, resolution, bout);
    CanonicalQuiet(t);
    forall q: seq<Onset> ensures AsDocumented(CANON, q) <==> |q| <= 12 {
      CanonicalPromise(q);
    }
  }

  lemma CanonicalPromise(q: seq<Onset>)
    ensures AsDocumented(CANON, q) <==> |q| <= 12
  {
    assert CANON.onsetDelay / CANON.onsetResolution == 12.0;
  }

  lemma CanonicalQuiet(t: real)
    requires t >= 0.0
    ensures IsQuietInstant(CANON, t) <==> t <= 12.0 || t == t.Floor as real
  {
    hide GridPoint, GridInstant;
    CanonicalGrid(t, 24);
    CanonicalGrid(t + 12.0, 24);
    WholeIsShifted(t);
    CanonicalSteps();
  }

  lemma CanonicalSteps()
    ensures 2 * (CANON.onsetDelay / CANON.onsetResolution).Floor == 24
  {
  }

  lemma WholeIsShifted(t: real)
    ensures t + 12.0 == (t + 12.0).Floor as real <==> t == t.Floor as real
  {
  }

  lemma CanonicalGrid(t: real, k: int)
    ensures GridPoint(t, 1.0) <==> t == t.Floor as real
    ensures GridInstant(k, 1.0) == k as real
  {
    assert GridInstant(t.Floor, 1.0) == t.Floor as real;
    if j :| t == GridInstant(j, 1.0) {
      assert t == j as real;
    }
  }
}

/** Soreness is conserved, late, and held in a short queue. */
module SorenessProperties {
  import opened Domain
  import opened Soreness

  // ----- what a region may hold -----

  ghost predicate SoundRegion(r: Region) {
    && (forall k :: 0 <= k < |r.latency| ==> r.latency[k] >= 0.0)
    && Increasing(r.pending)
    && (forall o :: o in r.pending ==> o.amount > 0.0 && o.releaseAt >= 0.0)
    && 0.0 <= r.expressed <= 1.0
  }

  ghost predicate SoundSoreness(s: Soreness) {
    && (forall site :: site in s.regions ==> SoundRegion(s.regions[site]))
    && (forall key :: key in s.adaptation ==> 0.0 <= s.adaptation[key] <= 1.0)
  }

  function Sum(v: seq<real>): real {
    if v == [] then 0.0 else Sum(v[..|v| - 1]) + v[|v| - 1]
  }

  function Amount(q: seq<Onset>): real {
    if q == [] then 0.0 else Amount(q[..|q| - 1]) + q[|q| - 1].amount
  }

  // ----- conservation -----

  lemma FlowBounds(value: real, ratio: real)
    requires value >= 0.0 && ratio >= 0.0
    ensures 0.0 <= Flow(value, ratio) <= value
  {
    assert value * ratio >= 0.0;
  }

  lemma {:induction false} FlowedSum(v: seq<real>, ratio: real, due: real)
    requires v != []
    ensures Sum(Flowed(v, ratio, due)) == Sum(v) - Transferred(v, ratio) + due
  {
    hide Flow;
    var flowed := Flowed(v, ratio, due);
    if |v| == 1 {
      assert flowed[..0] == [] && v[..0] == [];
    } else {
      var init := v[..|v| - 1];
      assert flowed[..|v| - 1] == Flowed(init, ratio, due);
      FlowedSum(init, ratio, due);
    }
  }

  lemma AmountAppend(q: seq<Onset>, o: Onset)
    ensures Amount(q + [o]) == Amount(q) + o.amount
  {
    assert (q + [o])[..|q|] == q;
  }

  lemma {:induction false} QueueSplits(q: seq<Onset>, end: real)
    ensures Amount(Held(q, end)) + Due(q, end) == Amount(q)
  {
    if q != [] {
      var init, last := q[..|q| - 1], q[|q| - 1];
      QueueSplits(init, end);
      if last.releaseAt <= end {
        assert Held(q, end) == Held(init, end);
      } else {
        AmountAppend(Held(init, end), last);
      }
    }
  }

  lemma {:induction false} PutAmount(q: seq<Onset>, at: real, amount: real)
    ensures Amount(Put(q, at, amount)) == Amount(q) + amount
  {
    if q == [] || q[|q| - 1].releaseAt < at {
      AmountAppend(q, Onset(at, amount));
    } else {
      var init, last := q[..|q| - 1], q[|q| - 1];
      if last.releaseAt == at {
        AmountAppend(init, Onset(at, last.amount + amount));
      } else {
        PutAmount(init, at, amount);
        AmountAppend(Put(init, at, amount), last);
      }
    }
  }

  lemma {:induction false} PositiveKeepsAmount(q: seq<Onset>)
    requires forall o :: o in q ==> o.amount >= 0.0
    ensures Amount(Positive(q)) == Amount(q)
  {
    if q != [] {
      var init, last := q[..|q| - 1], q[|q| - 1];
      assert q == init + [last];
      PositiveKeepsAmount(init);
      if last.amount > 0.0 {
        AmountAppend(Positive(init), last);
      } else {
        assert last.amount == 0.0 && Positive(q) == Positive(init);
      }
    }
  }

  lemma {:induction false} PositiveKeepsOrder(q: seq<Onset>)
    requires Increasing(q)
    ensures Increasing(Positive(q))
    ensures forall o :: o in Positive(q) <==> o in q && o.amount > 0.0
  {
    if q != [] {
      var init, last := q[..|q| - 1], q[|q| - 1];
      assert q == init + [last];
      PositiveKeepsOrder(init);
      forall k | 0 <= k < |Positive(init)| ensures Positive(init)[k].releaseAt < last.releaseAt {
        assert Positive(init)[k] in Positive(init);
      }
    }
  }

  lemma {:induction false} PutKeepsAmounts(q: seq<Onset>, at: real, amount: real)
    requires amount >= 0.0 && forall o :: o in q ==> o.amount >= 0.0
    ensures forall o :: o in Put(q, at, amount) ==> o.amount >= 0.0
  {
    if q != [] && q[|q| - 1].releaseAt >= at {
      var init, last := q[..|q| - 1], q[|q| - 1];
      assert q == init + [last];
      if last.releaseAt > at {
        PutKeepsAmounts(init, at, amount);
      }
    }
  }

  lemma ProductIsNonNegative(x: real, y: real)
    requires x >= 0.0 && y >= 0.0
    ensures x * y >= 0.0
  {
  }

  lemma AdmittedIsNonNegative(p: Params, dose: real, adapted: real)
    requires Sensible(p) && dose >= 0.0 && 0.0 <= adapted <= 1.0
    ensures 0.0 <= Admitted(p, dose, adapted) <= dose
  {
    ProductIsNonNegative(p.maxReduction, adapted);
    ProductIsNonNegative(1.0 - p.maxReduction, adapted);
    var kept := 1.0 - p.maxReduction * adapted;
    ProductIsNonNegative(dose, kept);
    ProductIsNonNegative(dose, 1.0 - kept);
  }

  function TakenIn(p: Params, dose: real, adapted: real): real {
    if dose > 0.0 then Admitted(p, dose, adapted) else 0.0
  }

  /** What the queue holds after a step. */
  lemma QueueAfter(p: Params, end: real, dose: real, adapted: real, pending: seq<Onset>)
    requires Sensible(p) && dose >= 0.0 && 0.0 <= adapted <= 1.0
    requires Increasing(pending) && forall o :: o in pending ==> o.amount > 0.0
    ensures var r := Positive(NewQueue(p, end, dose, adapted, pending));
            && Increasing(r)
            && (forall o :: o in r ==> o.amount > 0.0)
            && Amount(r) + Due(pending, end) == Amount(pending) + TakenIn(p, dose, adapted)
  {
    hide OnsetInstant, Put, Held, Positive, Amount, Admitted;
    var held, queue := Held(pending, end), NewQueue(p, end, dose, adapted, pending);
    HeldKeepsOrder(pending, end);
    QueueSplits(pending, end);
    AdmittedIsNonNegative(p, dose, adapted);
    if dose > 0.0 {
      var at := OnsetInstant(end + p.onsetDelay, p.onsetResolution);
      PutKeepsOrder(held, at, Admitted(p, dose, adapted));
      PutKeepsAmounts(held, at, Admitted(p, dose, adapted));
      PutAmount(held, at, Admitted(p, dose, adapted));
    }
    PositiveKeepsAmount(queue);
    PositiveKeepsOrder(queue);
  }

  /** What waits after a step waited before and is not due, or is what the step brought. */
  lemma WhatWaits(p: Params, end: real, dose: real, adapted: real, pending: seq<Onset>)
    requires Increasing(pending)
    ensures forall o :: o in Positive(NewQueue(p, end, dose, adapted, pending)) ==>
              || (o in pending && o.releaseAt > end)
              || (dose > 0.0 && o.releaseAt == OnsetInstant(end + p.onsetDelay, p.onsetResolution) && o.releaseAt >= end + p.onsetDelay)
  {
    hide OnsetInstant, Put, Held, Positive, Admitted, Increasing;
    HeldKeepsOrder(pending, end);
    var at := OnsetInstant(end + p.onsetDelay, p.onsetResolution);
    ReleaseIsNeverEarly(end + p.onsetDelay, p.onsetResolution);
    PutKeepsOrder(Held(pending, end), at, Admitted(p, dose, adapted));
    PositiveKeepsOrder(NewQueue(p, end, dose, adapted, pending));
  }

  lemma {:induction false} PaddingAddsNothing(v: seq<real>, n: nat)
    ensures Sum(v + Zeros(n)) == Sum(v)
  {
    if n == 0 {
      assert v + Zeros(0) == v;
    } else {
      assert (v + Zeros(n))[..|v| + n - 1] == v + Zeros(n - 1);
      PaddingAddsNothing(v, n - 1);
    }
  }

  lemma {:induction false} SumAppend(a: seq<real>, b: seq<real>)
    ensures Sum(a + b) == Sum(a) + Sum(b)
  {
    if b == [] {
      assert a + b == a;
    } else {
      assert (a + b)[..|a + b| - 1] == a + b[..|b| - 1];
      SumAppend(a, b[..|b| - 1]);
    }
  }

  /** What stages beyond the configured number held. */
  function CutOff(latency: seq<real>, stages: nat): real {
    if |latency| > stages then Sum(latency[stages..]) else 0.0
  }

  /** Damage neither appears nor vanishes in a step: what was in the chain and the queue, and
      what was admitted, is in the chain, in the queue or transferred. Only stages beyond the
      configured number are cut off. */
  lemma MassIsConserved(p: Params, t: real, i: Interval, dose: real, adapted: real, region: Region)
    requires Sensible(p) && dose >= 0.0 && 0.0 <= adapted <= 1.0 && SoundRegion(region)
    ensures var r := StepRegion(p, t, i, dose, adapted, region);
            var transferred := Transferred(Chain(region.latency, Stages(p)), i.dt / p.latencyTau);
            (Sum(r.latency) + Amount(r.pending) + transferred + CutOff(region.latency, Stages(p))
             == Sum(region.latency) + Amount(region.pending) + TakenIn(p, dose, adapted))
  {
    hide Due, Held, Put, Positive, Amount, Sum, Flow, Transferred, Flowed, NewQueue, TakenIn, Felt, Increasing;
    var stages, end := Stages(p), t + i.dt;
    var chain := Chain(region.latency, stages);
    if |region.latency| >= stages {
      assert region.latency == chain + region.latency[stages..];
      SumAppend(chain, region.latency[stages..]);
      if |region.latency| == stages {
        assert region.latency[stages..] == [];
        assert chain == region.latency;
      }
    } else {
      PaddingAddsNothing(region.latency, stages - |region.latency|);
    }
    FlowedSum(chain, i.dt / p.latencyTau, Due(region.pending, end));
    QueueAfter(p, end, dose, adapted, region.pending);
  }

  lemma {:induction false} DueIsNonNegative(q: seq<Onset>, end: real)
    requires forall o :: o in q ==> o.amount > 0.0
    ensures Due(q, end) >= 0.0
  {
    if q != [] {
      assert q == q[..|q| - 1] + [q[|q| - 1]];
      DueIsNonNegative(q[..|q| - 1], end);
    }
  }

  /** No stage goes negative, the queue stays strictly increasing with positive amounts at instants
      from hour zero on, and expression stays a fraction. */
  lemma RegionStaysSound(p: Params, t: real, i: Interval, dose: real, adapted: real, region: Region)
    requires Sensible(p) && Plausible(i) && t >= 0.0 && dose >= 0.0 && 0.0 <= adapted <= 1.0 && SoundRegion(region)
    ensures SoundRegion(StepRegion(p, t, i, dose, adapted, region))
  {
    hide Due, Held, Put, Positive, Amount, Flow, NewQueue, TakenIn, Felt, Increasing, OnsetInstant;
    var chain, end, ratio := Chain(region.latency, Stages(p)), t + i.dt, i.dt / p.latencyTau;
    QueueAfter(p, end, dose, adapted, region.pending);
    WhatWaits(p, end, dose, adapted, region.pending);
    DueIsNonNegative(region.pending, end);
    var flowed := Flowed(chain, ratio, Due(region.pending, end));
    forall k | 0 <= k < |flowed| ensures flowed[k] >= 0.0 {
      FlowBounds(chain[k], ratio);
      if k > 0 {
        FlowBounds(chain[k - 1], ratio);
      }
    }
  }

  // ----- the whole channel -----

  lemma DoseIsNonNegative(p: Params, i: Interval, site: Site)
    requires Sensible(p) && Plausible(i)
    ensures Dose(p, i, site) >= 0.0
  {
    assert i.intensity(site) >= 0.0;
    var rate := p.damageRate * i.intensity(site);
    assert rate >= 0.0 && rate * i.eccentric >= 0.0;
  }

  lemma {:induction false} VisitedRegions(p: Params, t: real, i: Interval, s: Soreness, sites: seq<Site>)
    requires Sensible(p)
    ensures forall site :: site in NewRegions(p, t, i, s, sites) <==> site in s.regions || site in sites
    ensures forall site :: site in sites ==> NewRegions(p, t, i, s, sites)[site] == StepAt(p, t, i, s, site)
    ensures forall site :: site in s.regions && site !in sites ==> NewRegions(p, t, i, s, sites)[site] == s.regions[site]
  {
    if sites != [] {
      assert sites == sites[..|sites| - 1] + [sites[|sites| - 1]];
      VisitedRegions(p, t, i, s, sites[..|sites| - 1]);
    }
  }

  lemma EverySiteIsVisited()
    ensures forall site: Site :: site in SITES
  {
    forall site: Site ensures site in SITES {
      var k := if site == Legs then 0 else if site == Arms then 1 else if site == Grip then 2 else 3;
      assert SITES[k] == site;
    }
  }

  /** Each region steps by itself: what happens to one site never depends on another. */
  lemma SitesAreIndependent(p: Params, t: real, i: Interval, s: Soreness, site: Site)
    requires Sensible(p) && i.dt != 0.0
    ensures RegionOf(Advanced(p, t, i, s), site) == StepAt(p, t, i, s, site)
    ensures site in Advanced(p, t, i, s).regions
  {
    hide StepAt;
    EverySiteIsVisited();
    VisitedRegions(p, t, i, s, SITES);
  }

  lemma {:induction false} AdaptationStaysAFraction(p: Params, i: Interval, s: Soreness, sites: seq<Site>)
    requires SoundSoreness(s)
    ensures forall key :: key in NewAdaptation(p, s, i, sites) ==> 0.0 <= NewAdaptation(p, s, i, sites)[key] <= 1.0
  {
    hide Dose;
    if sites != [] {
      AdaptationStaysAFraction(p, i, s, sites[..|sites| - 1]);
    }
  }

  lemma RestedIsSound()
    ensures SoundRegion(RESTED)
  {
  }

  lemma FractionsDecay(x: real, decay: real)
    requires 0.0 <= x <= 1.0 && 0.0 < decay <= 1.0
    ensures 0.0 <= x * decay <= 1.0
  {
    assert x * decay <= x * 1.0;
  }

  /** Every reachable state of the channel passes the validators of its own type. */
  lemma ChannelStaysSound(p: Params, t: real, i: Interval, s: Soreness)
    requires Sensible(p) && Plausible(i) && t >= 0.0 && SoundSoreness(s)
    ensures SoundSoreness(Advanced(p, t, i, s))
  {
    hide StepRegion, Dose, NewRegions, NewAdaptation, SoundRegion;
    if i.dt != 0.0 {
      RestedIsSound();
      EverySiteIsVisited();
      VisitedRegions(p, t, i, s, SITES);
      var r := Advanced(p, t, i, s);
      forall site | site in r.regions ensures SoundRegion(r.regions[site]) {
        DoseIsNonNegative(p, i, site);
        RegionStaysSound(p, t, i, Dose(p, i, site), AdaptationOf(s, site, i.activity), RegionOf(s, site));
      }
      AdaptationStaysAFraction(p, i, s, SITES);
      forall key | key in r.adaptation ensures 0.0 <= r.adaptation[key] <= 1.0 {
        FractionsDecay(NewAdaptation(p, s, i, SITES)[key], i.adaptationDecay);
      }
    }
  }

  lemma GainProtects(p: Params, dose: real, adapted: real)
    requires Sensible(p) && dose >= 0.0 && 0.0 <= adapted <= 1.0
    ensures adapted <= Gained(p, dose, adapted) <= 1.0
    ensures Admitted(p, dose, Gained(p, dose, adapted)) <= Admitted(p, dose, adapted)
  {
    var gained := Gained(p, dose, adapted);
    ProductIsNonNegative(1.0 - adapted, p.gain);
    ProductIsNonNegative((1.0 - adapted) * p.gain, dose);
    ProductIsNonNegative(p.maxReduction, gained - adapted);
    LessKept(dose, 1.0 - p.maxReduction * gained, 1.0 - p.maxReduction * adapted);
  }

  lemma LessKept(dose: real, a: real, b: real)
    requires dose >= 0.0 && a <= b
    ensures dose * a <= dose * b
  {
    ProductIsNonNegative(dose, b - a);
  }

  lemma {:induction false} VisitedAdaptation(p: Params, i: Interval, s: Soreness, sites: seq<Site>, site: Site)
    requires DistinctSites(sites) && site in sites && Dose(p, i, site) > 0.0
    ensures (site, i.activity) in NewAdaptation(p, s, i, sites)
    ensures NewAdaptation(p, s, i, sites)[(site, i.activity)] == Gained(p, Dose(p, i, site), AdaptationOf(s, site, i.activity))
  {
    hide Dose, Gained;
    var init, last := sites[..|sites| - 1], sites[|sites| - 1];
    assert sites == init + [last];
    if last != site {
      VisitedAdaptation(p, i, s, init, site);
    }
  }

  ghost predicate DistinctSites(sites: seq<Site>) {
    forall j, k :: 0 <= j < k < |sites| ==> sites[j] != sites[k]
  }

  /** The repeated-bout effect is specific to the site and the activity: a dose raises that one
      adaptation, and every other only decays. */
  lemma AdaptationIsSpecific(p: Params, t: real, i: Interval, s: Soreness, site: Site, activity: string)
    requires Sensible(p) && i.dt != 0.0
    ensures var after, before := AdaptationOf(Advanced(p, t, i, s), site, activity), AdaptationOf(s, site, activity);
            after == i.adaptationDecay
                     * if activity == i.activity && Dose(p, i, site) > 0.0 then Gained(p, Dose(p, i, site), before) else before
  {
    hide Dose, Gained, NewRegions;
    EverySiteIsVisited();
    if activity == i.activity && Dose(p, i, site) > 0.0 {
      VisitedAdaptation(p, i, s, SITES, site);
    } else {
      OthersAreUntouched(p, i, s, SITES, site, activity);
    }
  }

  lemma {:induction false} OthersAreUntouched(p: Params, i: Interval, s: Soreness, sites: seq<Site>, site: Site, activity: string)
    requires activity != i.activity || !(Dose(p, i, site) > 0.0)
    ensures (site, activity) in NewAdaptation(p, s, i, sites) <==> (site, activity) in s.adaptation
    ensures (site, activity) in s.adaptation ==> NewAdaptation(p, s, i, sites)[(site, activity)] == s.adaptation[(site, activity)]
  {
    hide Dose, Gained;
    if sites != [] {
      OthersAreUntouched(p, i, s, sites[..|sites| - 1], site, activity);
    }
  }

  // ----- the release grid -----

  lemma Scale(a: real, b: real, c: real)
    requires a < b && c > 0.0
    ensures a * c < b * c
  {
    assert (b - a) * c > 0.0;
  }

  /** The grid is ordered like the integers, and a ceiling is the first point at or after. */
  lemma GridOrder(j: int, k: int, resolution: real)
    requires resolution > 0.0
    ensures j < k <==> GridInstant(j, resolution) < GridInstant(k, resolution)
  {
    if j < k {
      Scale(j as real, k as real, resolution);
    } else if k < j {
      Scale(k as real, j as real, resolution);
    }
  }

  lemma CeilingIsFirst(at: real, resolution: real, k: int)
    requires resolution > 0.0
    ensures Ceiling(at / resolution) <= k <==> at <= GridInstant(k, resolution)
  {
    var x := at / resolution;
    assert x * resolution == at;
    if x < k as real {
      Scale(x, k as real, resolution);
    } else if k as real < x {
      Scale(k as real, x, resolution);
    }
  }

  lemma ReleaseIsNeverEarly(at: real, resolution: real)
    ensures at <= OnsetInstant(at, resolution)
    ensures resolution <= 0.0 ==> OnsetInstant(at, resolution) == at
    ensures resolution > 0.0 ==> forall k :: at <= GridInstant(k, resolution) ==> OnsetInstant(at, resolution) <= GridInstant(k, resolution)
  {
    if resolution > 0.0 {
      hide GridInstant;
      var first := Ceiling(at / resolution);
      CeilingIsFirst(at, resolution, first);
      forall k | at <= GridInstant(k, resolution) ensures GridInstant(first, resolution) <= GridInstant(k, resolution) {
        CeilingIsFirst(at, resolution, k);
        GridOrder(first, k, resolution);
        GridOrder(k, first, resolution);
      }
    }
  }

  lemma OnsetIsMonotone(a: real, b: real, resolution: real)
    requires a <= b
    ensures OnsetInstant(a, resolution) <= OnsetInstant(b, resolution)
  {
    if resolution > 0.0 {
      hide GridInstant;
      ReleaseIsNeverEarly(a, resolution);
      ReleaseIsNeverEarly(b, resolution);
    }
  }

  // ----- never early -----

  datatype TimedSoreness = TimedSoreness(t: real, s: Soreness)

  /** A body after a number of integration steps. */
  function After(p: Params, b: TimedSoreness, run: seq<Interval>): TimedSoreness
    requires Sensible(p)
  {
    if run == [] then b
    else
      var prior, i := After(p, b, run[..|run| - 1]), run[|run| - 1];
      TimedSoreness(prior.t + i.dt, Advanced(p, prior.t, i, prior.s))
  }

  /** The two runs take the same steps in time; their loads may differ. */
  ghost predicate SameClock(a: seq<Interval>, b: seq<Interval>) {
    && |a| == |b|
    && forall k :: 0 <= k < |a| ==>
         && a[k].dt == b[k].dt >= 0.0
         && a[k].resolutionDecay == b[k].resolutionDecay
         && a[k].adaptationDecay == b[k].adaptationDecay
  }

  /** How many steps end at or after an instant. */
  function StepsPast(t: real, run: seq<Interval>, instant: real): nat {
    if run == [] then 0
    else StepsPast(t, run[..|run| - 1], instant) + if Time(t, run) >= instant then 1 else 0
  }

  function Time(t: real, run: seq<Interval>): real {
    if run == [] then t else Time(t, run[..|run| - 1]) + run[|run| - 1].dt
  }

  /** The entries that are released before an instant. */
  function Earlier(q: seq<Onset>, instant: real): seq<Onset> {
    if q == [] then []
    else
      var last := q[|q| - 1];
      Earlier(q[..|q| - 1], instant) + if last.releaseAt < instant then [last] else []
  }

  lemma EarlierAppend(q: seq<Onset>, o: Onset, instant: real)
    ensures Earlier(q + [o], instant) == Earlier(q, instant) + if o.releaseAt < instant then [o] else []
  {
    assert (q + [o])[..|q|] == q;
  }

  lemma HeldAppend(q: seq<Onset>, o: Onset, end: real)
    ensures Held(q + [o], end) == Held(q, end) + if o.releaseAt <= end then [] else [o]
  {
    assert (q + [o])[..|q|] == q;
  }

  lemma DueAppend(q: seq<Onset>, o: Onset, end: real)
    ensures Due(q + [o], end) == Due(q, end) + if o.releaseAt <= end then o.amount else 0.0
  {
    assert (q + [o])[..|q|] == q;
  }

  lemma {:induction false} DueComesFromEarlier(q: seq<Onset>, end: real, instant: real)
    requires end < instant
    ensures Due(q, end) == Due(Earlier(q, instant), end)
  {
    if q != [] {
      var init, last := q[..|q| - 1], q[|q| - 1];
      DueComesFromEarlier(init, end, instant);
      if last.releaseAt < instant {
        DueAppend(Earlier(init, instant), last, end);
      } else {
        assert Earlier(q, instant) == Earlier(init, instant);
      }
    }
  }

  lemma {:induction false} EarlierOfHeld(q: seq<Onset>, end: real, instant: real)
    ensures Earlier(Held(q, end), instant) == Held(Earlier(q, instant), end)
  {
    if q != [] {
      hide Earlier, Held;
      var init, last := q[..|q| - 1], q[|q| - 1];
      var held, earlier := Held(init, end), Earlier(init, instant);
      assert q == init + [last];
      EarlierOfHeld(init, end, instant);
      HeldAppend(init, last, end);
      EarlierAppend(init, last, instant);
      if last.releaseAt <= end {
        assert Held(q, end) == held;
      } else {
        EarlierAppend(held, last, instant);
      }
      if last.releaseAt < instant {
        HeldAppend(earlier, last, end);
      } else {
        assert Earlier(q, instant) == earlier;
      }
    }
  }

  lemma {:induction false} EarlierOfPut(q: seq<Onset>, at: real, amount: real, instant: real)
    requires at >= instant
    ensures Earlier(Put(q, at, amount), instant) == Earlier(q, instant)
  {
    if q == [] || q[|q| - 1].releaseAt < at {
      assert (q + [Onset(at, amount)])[..|q|] == q;
    } else {
      var init, last := q[..|q| - 1], q[|q| - 1];
      if last.releaseAt == at {
        assert (init + [Onset(at, last.amount + amount)])[..|init|] == init;
      } else {
        EarlierOfPut(init, at, amount, instant);
        assert (Put(init, at, amount) + [last])[..|Put(init, at, amount)|] == Put(init, at, amount);
      }
    }
  }

  lemma {:induction false} EarlierOfPositive(q: seq<Onset>, instant: real)
    ensures Earlier(Positive(q), instant) == Positive(Earlier(q, instant))
  {
    if q != [] {
      var init, last := q[..|q| - 1], q[|q| - 1];
      EarlierOfPositive(init, instant);
      if last.amount > 0.0 {
        EarlierAppend(Positive(init), last, instant);
      } else {
        assert Positive(q) == Positive(init);
      }
      if last.releaseAt < instant {
        PositiveAppend(Earlier(init, instant), last);
      } else {
        assert Earlier(q, instant) == Earlier(init, instant);
      }
    }
  }

  lemma PositiveAppend(q: seq<Onset>, o: Onset)
    ensures Positive(q + [o]) == Positive(q) + if o.amount > 0.0 then [o] else []
  {
    assert (q + [o])[..|q|] == q;
  }

  lemma EarlierQueueAfter(p: Params, end: real, dose: real, adapted: real, q: seq<Onset>, instant: real)
    requires OnsetInstant(end + p.onsetDelay, p.onsetResolution) >= instant
    ensures Earlier(Positive(NewQueue(p, end, dose, adapted, q)), instant) == Positive(Held(Earlier(q, instant), end))
  {
    hide Earlier, Positive, Put, Held, OnsetInstant;
    EarlierOfPositive(NewQueue(p, end, dose, adapted, q), instant);
    EarlierOfHeld(q, end, instant);
    if dose > 0.0 {
      EarlierOfPut(Held(q, end), OnsetInstant(end + p.onsetDelay, p.onsetResolution), Admitted(p, dose, adapted), instant);
    }
  }

  /** Two regions agree on everything damage released at `instant` has not reached: the queue
      before it, the stages from `reach` on, and what is expressed. */
  ghost predicate Agree(p: Params, a: Region, b: Region, instant: real, reach: nat) {
    && Earlier(a.pending, instant) == Earlier(b.pending, instant)
    && (forall k :: reach <= k < Stages(p) ==> Chain(a.latency, Stages(p))[k] == Chain(b.latency, Stages(p))[k])
    && a.expressed == b.expressed
  }

  /** A step whose doses are released later moves the frontier by at most one stage, and
      not at all while nothing is released. */
  lemma StepAgrees(p: Params, t: real, i: Interval, j: Interval, doseA: real, doseB: real, adaptedA: real, adaptedB: real,
                   a: Region, b: Region, instant: real, reach: nat)
    requires Sensible(p) && SameClock([i], [j])
    requires OnsetInstant(t + i.dt + p.onsetDelay, p.onsetResolution) >= instant
    requires Agree(p, a, b, instant, reach) && reach < Stages(p)
    ensures var a', b' := StepRegion(p, t, i, doseA, adaptedA, a), StepRegion(p, t, j, doseB, adaptedB, b);
            && Agree(p, a', b', instant, reach + 1)
            && (t + i.dt < instant && reach == 0 ==> Agree(p, a', b', instant, 0))
  {
    hide Flow, Due, NewQueue, Positive, Held, Earlier, OnsetInstant, Felt, Chain;
    assert [i][0] == i && [j][0] == j;
    var end, stages, ratio := t + i.dt, Stages(p), i.dt / p.latencyTau;
    EarlierQueueAfter(p, end, doseA, adaptedA, a.pending, instant);
    EarlierQueueAfter(p, end, doseB, adaptedB, b.pending, instant);
    var va, vb := Chain(a.latency, stages), Chain(b.latency, stages);
    assert va[stages - 1] == vb[stages - 1];
    var a', b' := StepRegion(p, t, i, doseA, adaptedA, a), StepRegion(p, t, j, doseB, adaptedB, b);
    WholeChain(a'.latency, stages);
    WholeChain(b'.latency, stages);
    if end < instant {
      DueComesFromEarlier(a.pending, end, instant);
      DueComesFromEarlier(b.pending, end, instant);
    }
  }

  lemma WholeChain(v: seq<real>, stages: nat)
    requires |v| == stages
    ensures Chain(v, stages) == v
  {
  }

  lemma {:induction false} TimeGoesOn(t: real, run: seq<Interval>, n: nat)
    requires n <= |run| && forall k :: 0 <= k < |run| ==> run[k].dt >= 0.0
    ensures Time(t, run[..n]) <= Time(t, run)
  {
    if n < |run| {
      assert run[..|run| - 1][..n] == run[..n];
      TimeGoesOn(t, run[..|run| - 1], n);
    } else {
      assert run[..n] == run;
    }
  }

  lemma {:induction false} TimeOfRun(p: Params, body: TimedSoreness, run: seq<Interval>)
    requires Sensible(p)
    ensures After(p, body, run).t == Time(body.t, run)
  {
    if run != [] {
      TimeOfRun(p, body, run[..|run| - 1]);
    }
  }

  lemma {:induction false} OnlyLateStepsPass(t: real, run: seq<Interval>, instant: real)
    requires forall k :: 0 <= k < |run| ==> run[k].dt >= 0.0
    ensures StepsPast(t, run, instant) > 0 ==> Time(t, run) >= instant
  {
    if run != [] {
      TimeGoesOn(t, run, |run| - 1);
      OnlyLateStepsPass(t, run[..|run| - 1], instant);
    }
  }

  /** The frontier after a run: as many stages as steps that ended past the release. */
  lemma {:induction false} RunsAgree(p: Params, body: TimedSoreness, a: seq<Interval>, b: seq<Interval>, site: Site, instant: real)
    requires Sensible(p) && SameClock(a, b)
    requires a != [] ==> OnsetInstant(body.t + a[0].dt + p.onsetDelay, p.onsetResolution) >= instant
    requires StepsPast(body.t, a, instant) <= Stages(p)
    ensures Agree(p, RegionOf(After(p, body, a).s, site), RegionOf(After(p, body, b).s, site), instant, StepsPast(body.t, a, instant))
    ensures Time(body.t, a) == Time(body.t, b)
  {
    hide Advanced, Agree, OnsetInstant, RegionOf, StepRegion;
    if a == [] {
      AgreeWithItself(p, RegionOf(body.s, site), instant);
    } else {
      var n := |a| - 1;
      var i, j, initA, initB := a[n], b[n], a[..n], b[..n];
      assert initA != [] ==> initA[0] == a[0];
      RunsAgree(p, body, initA, initB, site, instant);
      TimeOfRun(p, body, initA);
      TimeOfRun(p, body, initB);
      var priorA, priorB, reach := After(p, body, initA), After(p, body, initB), StepsPast(body.t, initA, instant);
      assert After(p, body, a).s == Advanced(p, priorA.t, i, priorA.s);
      assert After(p, body, b).s == Advanced(p, priorB.t, j, priorB.s);
      OnlyLateStepsPass(body.t, initA, instant);
      TimeGoesOn(body.t, a, n);
      LastStepAgrees(p, priorA.t, i, j, priorA.s, priorB.s, site, instant, reach) by {
        FirstReleaseIsEarliest(p, body.t, a, instant);
      }
    }
  }

  lemma FirstReleaseIsEarliest(p: Params, t: real, run: seq<Interval>, instant: real)
    requires run != [] && forall k :: 0 <= k < |run| ==> run[k].dt >= 0.0
    requires OnsetInstant(t + run[0].dt + p.onsetDelay, p.onsetResolution) >= instant
    ensures OnsetInstant(Time(t, run) + p.onsetDelay, p.onsetResolution) >= instant
  {
    hide OnsetInstant;
    TimeGoesOn(t, run, 1);
    assert run[..1][..0] == [] && Time(t, run[..1]) == t + run[0].dt;
    OnsetIsMonotone(t + run[0].dt + p.onsetDelay, Time(t, run) + p.onsetDelay, p.onsetResolution);
  }

  lemma AgreeWithItself(p: Params, r: Region, instant: real)
    ensures Agree(p, r, r, instant, 0)
  {
  }

  lemma LastStepAgrees(p: Params, t: real, i: Interval, j: Interval, sa: Soreness, sb: Soreness, site: Site, instant: real, reach: nat)
    requires Sensible(p) && SameClock([i], [j])
    requires OnsetInstant(t + i.dt + p.onsetDelay, p.onsetResolution) >= instant
    requires Agree(p, RegionOf(sa, site), RegionOf(sb, site), instant, reach)
    requires t + i.dt >= instant ==> reach < Stages(p)
    requires t + i.dt < instant ==> reach == 0
    ensures Agree(p, RegionOf(Advanced(p, t, i, sa), site), RegionOf(Advanced(p, t, j, sb), site), instant,
                  if t + i.dt >= instant then reach + 1 else reach)
  {
    assert [i][0] == i && [j][0] == j;
    hide Dose, RegionOf, AdaptationOf, OnsetInstant, StepRegion, Earlier;
    if i.dt != 0.0 {
      SitesAreIndependent(p, t, i, sa, site);
      SitesAreIndependent(p, t, j, sb, site);
      StepAgrees(p, t, i, j, Dose(p, i, site), Dose(p, j, site), AdaptationOf(sa, site, i.activity), AdaptationOf(sb, site, j.activity),
                 RegionOf(sa, site), RegionOf(sb, site), instant, reach);
    }
  }

  /** Soreness is never early. Whatever loads two runs carry from some step on, they express
      the same until as many steps have ended at or after the release instant of that step's
      damage as there are latency stages: not before the release, not in the step of the
      release, and not in the steps of the remaining stages. */
  lemma NeverEarly(p: Params, body: TimedSoreness, a: seq<Interval>, b: seq<Interval>, site: Site)
    requires Sensible(p) && SameClock(a, b) && a != []
    requires StepsPast(body.t, a, OnsetInstant(body.t + a[0].dt + p.onsetDelay, p.onsetResolution)) <= Stages(p)
    ensures RegionOf(After(p, body, a).s, site).expressed == RegionOf(After(p, body, b).s, site).expressed
    ensures OnsetInstant(body.t + a[0].dt + p.onsetDelay, p.onsetResolution) >= body.t + a[0].dt + p.onsetDelay
  {
    hide OnsetInstant, StepsPast, After;
    var release := OnsetInstant(body.t + a[0].dt + p.onsetDelay, p.onsetResolution);
    RunsAgree(p, body, a, b, site, release);
    ReleaseIsNeverEarly(body.t + a[0].dt + p.onsetDelay, p.onsetResolution);
  }
}

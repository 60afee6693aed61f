/** Delayed-onset soreness: damage waits in a release queue, walks a latency chain and only
    then is expressed. Exact real arithmetic; the exponential decays are parameters. */
module Soreness {
  import opened Domain
  import opened Sorting

  datatype Site = Legs | Arms | Grip | Core

  /** In the order the channel visits them. */
  const SITES: seq<Site> := [Legs, Arms, Grip, Core]

  /** The tuning of the channel. A resolution of zero or less means no release grid. */
  datatype Params = Params(latencyStages: int, latencyTau: real, onsetDelay: real, onsetResolution: real,
                           damageRate: real, maxReduction: real, gain: real)

  predicate Sensible(p: Params) {
    p.latencyTau > 0.0 && p.onsetDelay >= 0.0 && p.damageRate >= 0.0 && 0.0 <= p.maxReduction <= 1.0 && p.gain >= 0.0
  }

  /** One integration step: its length, what the decays amount to over it, and the load. */
  datatype Interval = Interval(dt: real, resolutionDecay: real, adaptationDecay: real,
                               activity: string, eccentric: real, intensity: Site -> real)

  ghost predicate Plausible(i: Interval) {
    && i.dt >= 0.0
    && 0.0 < i.resolutionDecay <= 1.0
    && 0.0 < i.adaptationDecay <= 1.0
    && 0.0 <= i.eccentric <= 1.0
    && forall site :: i.intensity(site) >= 0.0
  }

  datatype Onset = Onset(releaseAt: real, amount: real)

  datatype Region = Region(latency: seq<real>, pending: seq<Onset>, expressed: real)

  const RESTED := Region([], [], 0.0)

  /** Adaptation is kept for a region and an activity together. */
  datatype Soreness = Soreness(regions: map<Site, Region>, adaptation: map<(Site, string), real>)

  // ----- arithmetic -----

  function Clamp(x: real): (r: real)
    ensures 0.0 <= r <= 1.0
    ensures 0.0 <= x <= 1.0 ==> r == x
  {
    if x < 0.0 then 0.0 else if x > 1.0 then 1.0 else x
  }

  function Ceiling(x: real): (k: int)
    ensures x <= k as real < x + 1.0
  {
    -((-x).Floor)
  }

  function GridInstant(k: int, resolution: real): real {
    k as real * resolution
  }

  /** The first grid instant at or after `at`. */
  function OnsetInstant(at: real, resolution: real): real {
    if resolution <= 0.0 then at else GridInstant(Ceiling(at / resolution), resolution)
  }

  function Stages(p: Params): (n: nat)
    ensures n >= 1
  {
    if p.latencyStages > 1 then p.latencyStages else 1
  }

  /** What leaves a stage in one step: never more than it holds. */
  function Flow(value: real, ratio: real): real {
    if value * ratio < value then value * ratio else value
  }

  function Dose(p: Params, i: Interval, site: Site): real {
    p.damageRate * i.intensity(site) * i.eccentric * i.dt
  }

  function Admitted(p: Params, dose: real, adapted: real): real {
    dose * (1.0 - p.maxReduction * adapted)
  }

  function Gained(p: Params, dose: real, adapted: real): real {
    Clamp(adapted + (1.0 - adapted) * p.gain * dose)
  }

  // ----- the release queue -----

  ghost predicate Increasing(q: seq<Onset>) {
    forall i, j :: 0 <= i < j < |q| ==> q[i].releaseAt < q[j].releaseAt
  }

  function Due(q: seq<Onset>, end: real): real {
    if q == [] then 0.0
    else
      var last := q[|q| - 1];
      Due(q[..|q| - 1], end) + if last.releaseAt <= end then last.amount else 0.0
  }

  function Held(q: seq<Onset>, end: real): (r: seq<Onset>)
    ensures forall o :: o in r <==> o in q && o.releaseAt > end
  {
    if q == [] then []
    else
      assert q == q[..|q| - 1] + [q[|q| - 1]];
      var last := q[|q| - 1];
      Held(q[..|q| - 1], end) + if last.releaseAt <= end then [] else [last]
  }

  /** Adds damage to the entry of an instant, making one in order if there is none. */
  function Put(q: seq<Onset>, at: real, amount: real): seq<Onset> {
    if q == [] || q[|q| - 1].releaseAt < at then q + [Onset(at, amount)]
    else
      var init, last := q[..|q| - 1], q[|q| - 1];
      if last.releaseAt == at then init + [Onset(at, last.amount + amount)] else Put(init, at, amount) + [last]
  }

  function Positive(q: seq<Onset>): seq<Onset> {
    if q == [] then []
    else
      var last := q[|q| - 1];
      Positive(q[..|q| - 1]) + if last.amount > 0.0 then [last] else []
  }

  // ----- one step of one region -----

  function Zeros(n: nat): seq<real> {
    seq(n, _ => 0.0)
  }

  /** The chain cut or padded to its configured length. */
  function Chain(latency: seq<real>, stages: nat): (r: seq<real>)
    ensures |r| == stages
  {
    if |latency| >= stages then latency[..stages] else latency + Zeros(stages - |latency|)
  }

  /** Every stage flows from the values of the start of the step; due damage enters last. */
  function Flowed(v: seq<real>, ratio: real, due: real): (r: seq<real>)
    ensures |r| == |v|
  {
    seq(|v|, k requires 0 <= k < |v| => v[k] - Flow(v[k], ratio) + if k == 0 then due else Flow(v[k - 1], ratio))
  }

  function Transferred(v: seq<real>, ratio: real): real
    requires v != []
  {
    Flow(v[|v| - 1], ratio)
  }

  function NewQueue(p: Params, end: real, dose: real, adapted: real, pending: seq<Onset>): seq<Onset> {
    var held := Held(pending, end);
    if dose > 0.0 then Put(held, OnsetInstant(end + p.onsetDelay, p.onsetResolution), Admitted(p, dose, adapted)) else held
  }

  function Felt(expressed: real, decay: real, transferred: real): (r: real)
    ensures 0.0 <= r <= 1.0
  {
    Clamp(expressed * decay + transferred)
  }

  function StepRegion(p: Params, t: real, i: Interval, dose: real, adapted: real, region: Region): Region
    requires Sensible(p)
  {
    var end, ratio := t + i.dt, i.dt / p.latencyTau;
    var chain := Chain(region.latency, Stages(p));
    Region(Flowed(chain, ratio, Due(region.pending, end)),
           Positive(NewQueue(p, end, dose, adapted, region.pending)),
           Felt(region.expressed, i.resolutionDecay, Transferred(chain, ratio)))
  }

  // ----- one step of the whole channel -----

  function RegionOf(s: Soreness, site: Site): Region {
    if site in s.regions then s.regions[site] else RESTED
  }

  function AdaptationOf(s: Soreness, site: Site, activity: string): real {
    if (site, activity) in s.adaptation then s.adaptation[(site, activity)] else 0.0
  }

  function StepAt(p: Params, t: real, i: Interval, s: Soreness, site: Site): Region
    requires Sensible(p)
  {
    StepRegion(p, t, i, Dose(p, i, site), AdaptationOf(s, site, i.activity), RegionOf(s, site))
  }

  /** The dictionaries once the given sites have been visited. */
  function NewRegions(p: Params, t: real, i: Interval, s: Soreness, sites: seq<Site>): map<Site, Region>
    requires Sensible(p)
  {
    if sites == [] then s.regions
    else
      var site := sites[|sites| - 1];
      NewRegions(p, t, i, s, sites[..|sites| - 1])[site := StepAt(p, t, i, s, site)]
  }

  function NewAdaptation(p: Params, s: Soreness, i: Interval, sites: seq<Site>): map<(Site, string), real> {
    if sites == [] then s.adaptation
    else
      var site, prior := sites[|sites| - 1], NewAdaptation(p, s, i, sites[..|sites| - 1]);
      var dose := Dose(p, i, site);
      if dose > 0.0 then prior[(site, i.activity) := Gained(p, dose, AdaptationOf(s, site, i.activity))] else prior
  }

  /** No time, no change; otherwise every site steps and every adaptation decays. */
  function Advanced(p: Params, t: real, i: Interval, s: Soreness): Soreness
    requires Sensible(p)
  {
    if i.dt == 0.0 then s
    else
      var adapted := NewAdaptation(p, s, i, SITES);
      Soreness(NewRegions(p, t, i, s, SITES),
               map key | key in adapted :: adapted[key] * i.adaptationDecay)
  }

  // ----- the same with dictionaries and loops -----

  predicate InstantLess(a: real, b: real) {
    a < b
  }

  /** The dictionary that holds what a queue holds. */
  function AsMap(q: seq<Onset>): map<real, real> {
    if q == [] then map[] else AsMap(q[..|q| - 1])[q[|q| - 1].releaseAt := q[|q| - 1].amount]
  }

  function Get(held: map<real, real>, at: real): real {
    if at in held then held[at] else 0.0
  }

  function Instants(q: seq<Onset>): (r: seq<real>)
    ensures |r| == |q|
  {
    seq(|q|, k requires 0 <= k < |q| => q[k].releaseAt)
  }

  lemma {:induction false} AsMapKeys(q: seq<Onset>, at: real)
    ensures at in AsMap(q) <==> at in Instants(q)
  {
    if q != [] {
      var init, last := q[..|q| - 1], q[|q| - 1];
      AsMapKeys(init, at);
      assert Instants(q) == Instants(init) + [last.releaseAt];
    }
  }

  lemma AsMapAppend(q: seq<Onset>, o: Onset)
    ensures AsMap(q + [o]) == AsMap(q)[o.releaseAt := o.amount]
  {
    assert (q + [o])[..|q|] == q;
  }

  /** Adding to a dictionary entry is putting into the queue. */
  lemma {:induction false} PutAsMap(q: seq<Onset>, at: real, amount: real)
    requires Increasing(q)
    ensures AsMap(Put(q, at, amount)) == AsMap(q)[at := Get(AsMap(q), at) + amount]
  {
    hide AsMap;
    AsMapKeys(q, at);
    if q == [] || q[|q| - 1].releaseAt < at {
      AsMapAppend(q, Onset(at, amount));
    } else {
      var init, last := q[..|q| - 1], q[|q| - 1];
      assert q == init + [last];
      AsMapAppend(init, last);
      if last.releaseAt == at {
        AsMapAppend(init, Onset(at, last.amount + amount));
      } else {
        PutAsMap(init, at, amount);
        AsMapAppend(Put(init, at, amount), last);
      }
    }
  }

  lemma {:induction false} AsMapAt(q: seq<Onset>, k: nat)
    requires Increasing(q) && k < |q|
    ensures q[k].releaseAt in AsMap(q) && AsMap(q)[q[k].releaseAt] == q[k].amount
  {
    var init, last := q[..|q| - 1], q[|q| - 1];
    if k < |q| - 1 {
      AsMapAt(init, k);
    }
  }

  lemma {:induction false} PutKeepsOrder(q: seq<Onset>, at: real, amount: real)
    requires Increasing(q)
    ensures Increasing(Put(q, at, amount))
    ensures forall o :: o in Put(q, at, amount) ==> o.releaseAt == at || o in q
    ensures forall o :: o in q && o.releaseAt != at ==> o in Put(q, at, amount)
  {
    if q != [] && q[|q| - 1].releaseAt >= at {
      var init, last := q[..|q| - 1], q[|q| - 1];
      assert q == init + [last];
      if last.releaseAt > at {
        PutKeepsOrder(init, at, amount);
        forall k | 0 <= k < |Put(init, at, amount)| ensures Put(init, at, amount)[k].releaseAt < last.releaseAt {
          var o := Put(init, at, amount)[k];
          assert o in Put(init, at, amount);
          assert o.releaseAt == at || o in init;
        }
      }
    }
  }

  lemma {:induction false} HeldKeepsOrder(q: seq<Onset>, end: real)
    requires Increasing(q)
    ensures Increasing(Held(q, end))
  {
    if q != [] {
      var init, last := q[..|q| - 1], q[|q| - 1];
      HeldKeepsOrder(init, end);
      forall k | 0 <= k < |Held(init, end)| ensures Held(init, end)[k].releaseAt < last.releaseAt {
        assert Held(init, end)[k] in Held(init, end);
      }
    }
  }

  lemma SplitOneMore(q: seq<Onset>, k: nat, end: real)
    requires Increasing(q) && k < |q|
    ensures Due(q[..k + 1], end) == Due(q[..k], end) + if q[k].releaseAt <= end then q[k].amount else 0.0
    ensures q[k].releaseAt <= end ==> Held(q[..k + 1], end) == Held(q[..k], end)
    ensures q[k].releaseAt > end ==> AsMap(Held(q[..k + 1], end)) == AsMap(Held(q[..k], end))[q[k].releaseAt := q[k].amount]
    ensures q[k].releaseAt !in AsMap(Held(q[..k], end))
  {
    assert q[..k + 1][..k] == q[..k];
    AsMapAppend(Held(q[..k], end), q[k]);
    AsMapKeys(Held(q[..k], end), q[k].releaseAt);
    var held := Held(q[..k], end);
    forall j | 0 <= j < |held| ensures Instants(held)[j] != q[k].releaseAt {
      assert held[j] in held;
      assert held[j] in q[..k];
    }
  }

  /** Splits the queue at the end of the step: what is due is summed, the rest goes into a
      dictionary keyed by release instant. */
  method SplitQueue(q: seq<Onset>, end: real) returns (due: real, held: map<real, real>)
    requires Increasing(q)
    ensures due == Due(q, end)
    ensures held == AsMap(Held(q, end))
  {
    due, held := 0.0, map[];
    assert Due(q[..0], end) == 0.0 && Held(q[..0], end) == [];
    hide Due, Held, AsMap, Increasing;
    for k := 0 to |q|
      invariant due == Due(q[..k], end)
      invariant held == AsMap(Held(q[..k], end))
    {
      SplitOneMore(q, k, end);
      if q[k].releaseAt <= end {
        due := due + q[k].amount;
      } else {
        held := held[q[k].releaseAt := Get(held, q[k].releaseAt) + q[k].amount];
      }
    }
    assert q[..|q|] == q;
  }

  lemma InstantsAreOrdered()
    ensures StrictOrder(InstantLess)
  {
  }

  lemma SortedInstants(q: seq<Onset>, instants: seq<real>)
    requires Increasing(q)
    requires StrictlySorted(InstantLess, instants) && forall at :: at in instants <==> at in AsMap(q)
    ensures instants == Instants(q)
  {
    hide AsMap;
    forall at ensures at in instants <==> at in Instants(q) {
      AsMapKeys(q, at);
    }
    InstantsAreOrdered();
    StrictlySortedUnique(InstantLess, instants, Instants(q));
  }

  lemma PositiveOneMore(q: seq<Onset>, k: nat)
    requires k < |q|
    ensures Positive(q[..k + 1]) == Positive(q[..k]) + if q[k].amount > 0.0 then [q[k]] else []
  {
    assert q[..k + 1][..k] == q[..k];
  }

  /** The dictionary's items in order of instant, without the empty ones. */
  method SortedItems(held: map<real, real>, ghost q: seq<Onset>) returns (r: seq<Onset>)
    requires Increasing(q) && held == AsMap(q)
    ensures r == Positive(q)
  {
    hide AsMap;
    InstantsAreOrdered();
    var instants := SortSet(InstantLess, held.Keys);
    SortedInstants(q, instants);
    r := [];
    assert Positive(q[..0]) == [];
    hide Positive, Increasing, StrictlySorted;
    for k := 0 to |instants|
      invariant r == Positive(q[..k])
    {
      AsMapAt(q, k);
      assert instants[k] == q[k].releaseAt;
      PositiveOneMore(q, k);
      if held[instants[k]] > 0.0 {
        r := r + [Onset(instants[k], held[instants[k]])];
      }
    }
    assert q[..|q|] == q;
  }

  /** Stage `j` once the first `k` stages have flowed. */
  ghost function Moved(v: seq<real>, ratio: real, k: nat, j: nat): real
    requires j < |v|
  {
    v[j] - (if j < k then Flow(v[j], ratio) else 0.0) + if 0 < j <= k then Flow(v[j - 1], ratio) else 0.0
  }

  /** Moves every stage in place, from the values before the step. */
  method FlowInPlace(latency: array<real>, ratio: real, due: real) returns (transferred: real)
    requires latency.Length >= 1
    modifies latency
    ensures latency[..] == Flowed(old(latency[..]), ratio, due)
    ensures transferred == Transferred(old(latency[..]), ratio)
  {
    hide Flow, Flowed;
    var previous := latency[..];
    var stages := latency.Length;
    transferred := 0.0;
    for k := 0 to stages
      invariant forall j :: 0 <= j < stages ==> latency[j] == Moved(previous, ratio, k, j)
      invariant transferred == if k == stages then Flow(previous[stages - 1], ratio) else 0.0
    {
      var flow := Flow(previous[k], ratio);
      latency[k] := latency[k] - flow;
      if k + 1 < stages {
        latency[k + 1] := latency[k + 1] + flow;
      } else {
        transferred := transferred + flow;
      }
    }
    latency[0] := latency[0] + due;
    AllMoved(previous, ratio, due, latency[..]);
  }

  lemma AllMoved(v: seq<real>, ratio: real, due: real, after: seq<real>)
    requires v != [] && |after| == |v|
    requires forall j :: 0 <= j < |v| ==> after[j] == Moved(v, ratio, |v|, j) + if j == 0 then due else 0.0
    ensures after == Flowed(v, ratio, due)
  {
    hide Flow;
  }

  /** One region's step, with the dictionary of held damage and the in-place chain. */
  method AdvanceRegion(p: Params, t: real, i: Interval, dose: real, adapted: real, region: Region) returns (r: Region)
    requires Sensible(p) && Increasing(region.pending)
    ensures r == StepRegion(p, t, i, dose, adapted, region)
  {
    hide Stages, Chain, Due, Held, Put, Positive, AsMap, Flow, Flowed, Transferred, OnsetInstant, Admitted, Felt;
    var stages := Stages(p);
    var chain := Chain(region.latency, stages);
    var latency := new real[stages](k requires 0 <= k < |chain| => chain[k]);
    assert latency[..] == chain;
    var end := t + i.dt;
    var due, held := SplitQueue(region.pending, end);
    ghost var queue := Held(region.pending, end);
    HeldKeepsOrder(region.pending, end);
    if dose > 0.0 {
      var releaseAt, admitted := OnsetInstant(end + p.onsetDelay, p.onsetResolution), Admitted(p, dose, adapted);
      PutAsMap(queue, releaseAt, admitted);
      PutKeepsOrder(queue, releaseAt, admitted);
      held := held[releaseAt := Get(held, releaseAt) + admitted];
      queue := Put(queue, releaseAt, admitted);
    }
    assert queue == NewQueue(p, end, dose, adapted, region.pending);
    var pending := SortedItems(held, queue);
    assert latency[..] == chain;
    var transferred := FlowInPlace(latency, i.dt / p.latencyTau, due);
    r := Region(latency[..], pending, Felt(region.expressed, i.resolutionDecay, transferred));
  }

  lemma {:induction false} UntouchedYet(p: Params, i: Interval, s: Soreness, sites: seq<Site>, key: (Site, string))
    requires key.0 !in sites || key.1 != i.activity
    ensures key in NewAdaptation(p, s, i, sites) <==> key in s.adaptation
    ensures key in s.adaptation ==> NewAdaptation(p, s, i, sites)[key] == s.adaptation[key]
  {
    if sites != [] {
      assert sites == sites[..|sites| - 1] + [sites[|sites| - 1]];
      UntouchedYet(p, i, s, sites[..|sites| - 1], key);
    }
  }

  /** The channel: every site in turn, into copies of the two dictionaries. */
  method AdvanceSoreness(p: Params, t: real, i: Interval, s: Soreness) returns (r: Soreness)
    requires Sensible(p)
    requires forall site :: site in s.regions ==> Increasing(s.regions[site].pending)
    ensures r == Advanced(p, t, i, s)
  {
    hide Dose, Gained, StepRegion, Sensible, Increasing;
    if i.dt == 0.0 {
      return s;
    }
    var regions, adaptation := s.regions, s.adaptation;
    RestedIsIncreasing();
    for k := 0 to |SITES|
      invariant regions == NewRegions(p, t, i, s, SITES[..k])
      invariant adaptation == NewAdaptation(p, s, i, SITES[..k])
    {
      var site := SITES[k];
      assert SITES[..k + 1][..k] == SITES[..k];
      UntouchedYet(p, i, s, SITES[..k], (site, i.activity));
      var dose := Dose(p, i, site);
      var adapted := if (site, i.activity) in adaptation then adaptation[(site, i.activity)] else 0.0;
      var region := AdvanceRegion(p, t, i, dose, adapted, RegionOf(s, site));
      regions := regions[site := region];
      if dose > 0.0 {
        adaptation := adaptation[(site, i.activity) := Gained(p, dose, adapted)];
      }
    }
    assert SITES[..|SITES|] == SITES;
    return Soreness(regions, map key | key in adaptation :: adaptation[key] * i.adaptationDecay);
  }

  lemma RestedIsIncreasing()
    ensures Increasing(RESTED.pending)
  {
  }
}

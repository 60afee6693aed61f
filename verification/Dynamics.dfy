/** The body moved forward by fixed integration steps. Exact real arithmetic; the exponential, the
    power and the circadian curve are parameters of which only the range is used. */
module Dynamics {
  import opened Domain
  import opened Soreness
  import opened SorenessProperties

  // ----- what a body is -----

  /** The declared bounds of what other numbers are divided by. */
  type Positive = x: real | x > 0.0 witness 1.0
  type NonNegative = x: real | x >= 0.0

  datatype Quality = Good | Fair | Poor

  datatype LastSleep = LastSleep(start: real, end: real, quality: Quality)

  /** Work available above critical power, and the time constant it comes back with. */
  datatype Reserve = Reserve(remaining: real, capacity: real, tau: real)

  datatype Sleep = Sleep(debt: NonNegative, awake: real, phase: real, last: Option<LastSleep>)

  datatype Energy = Energy(substrate: real, balance: real, lastMeal: Option<real>)

  datatype Thermal = Thermal(offset: real, wbgt: real, workRest: real, clothing: real)

  datatype Injury = Injury(region: string, expectedDays: Positive, progress: real, setback: real, atRest: real)

  datatype Pain = Pain(regions: map<Site, real>, overall: real, analgesia: real)

  datatype Body = Body(t: real, reserve: Reserve, peripheral: map<Site, real>, central: real, acute: real, chronic: real,
                       sleep: Sleep, energy: Energy, deficit: real, thermal: Thermal, soreness: Soreness,
                       injuries: seq<Injury>, pain: Pain)

  predicate Fraction(x: real) {
    0.0 <= x <= 1.0
  }

  /** The declared domains, section by section. */
  predicate ValidReserve(r: Reserve) {
    0.0 <= r.remaining <= r.capacity && r.capacity > 0.0 && r.tau > 0.0
  }

  predicate ValidSleep(s: Sleep) {
    && s.debt >= 0.0 && s.awake >= 0.0 && 0.0 <= s.phase < 24.0
    && (s.last.Some? ==> s.last.value.start <= s.last.value.end)
  }

  predicate ValidThermal(h: Thermal) {
    h.offset >= 0.0 && h.workRest > 0.0 && h.clothing >= 0.0
  }

  predicate ValidInjury(i: Injury) {
    i.expectedDays > 0.0 && Fraction(i.progress) && Fraction(i.setback) && Fraction(i.atRest)
  }

  ghost predicate ValidPain(p: Pain) {
    (forall site :: site in p.regions ==> Fraction(p.regions[site])) && Fraction(p.overall) && Fraction(p.analgesia)
  }

  ghost predicate Fractions(m: map<Site, real>) {
    forall site :: site in m && Fraction(m[site])
  }

  ghost predicate Valid(b: Body) {
    && b.t >= 0.0
    && ValidReserve(b.reserve)
    && Fractions(b.peripheral)
    && Fraction(b.central)
    && b.acute >= 0.0 && b.chronic >= 0.0
    && ValidSleep(b.sleep)
    && Fraction(b.energy.substrate)
    && b.deficit >= 0.0
    && ValidThermal(b.thermal)
    && SoundSoreness(b.soreness)
    && (forall i :: i in b.injuries ==> ValidInjury(i))
    && ValidPain(b.pain)
  }

  // ----- what an interval brings -----

  datatype Environment = Environment(wbgt: real, workRest: real, clothing: real, asleep: bool, quality: Quality,
                                     fluid: real, carbohydrate: real)

  datatype Load = Load(intensity: real, share: Site -> real, eccentric: real, activity: string)

  datatype Traits = Traits(mass: Positive, recovery: Positive)

  datatype Exposure = Exposure(environment: Environment, load: Load, traits: Traits)

  predicate IsEnvironment(e: Environment) {
    e.workRest > 0.0 && e.clothing >= 0.0 && Fraction(e.fluid) && Fraction(e.carbohydrate)
  }

  ghost predicate IsExposure(x: Exposure) {
    && IsEnvironment(x.environment)
    && 0.0 <= x.load.intensity <= 2.0 && Fraction(x.load.eccentric)
    && forall site :: Fraction(x.load.share(site))
  }

  /** Nobody works asleep. */
  function Intensity(x: Exposure): real {
    if x.environment.asleep then 0.0 else x.load.intensity
  }

  function Regional(x: Exposure, site: Site): real {
    if x.environment.asleep then 0.0 else x.load.intensity * x.load.share(site)
  }

  // ----- the tuning file -----

  datatype ReserveTuning = ReserveTuning(atLow: real, atModerate: real, atHeavy: real, moderateAt: real,
                                         critical: real, depletion: real, reference: real)

  datatype CentralTuning = CentralTuning(tauAwake: real, tauAsleep: real, accrual: real, fromPressure: real)

  datatype SleepTuning = SleepTuning(need: real, efficiency: Quality -> real, cap: NonNegative,
                                     halfSaturation: Positive, normalWaking: real, circadian: real -> real, gain: real)

  datatype EnergyTuning = EnergyTuning(resting: real, coefficient: real, exponent: real, repletion: real, perPercent: real,
                                       restingKcal: real, workKcal: real, intakeKcal: real, window: real)

  datatype WaterTuning = WaterTuning(threshold: real, perDegree: real, workDegrees: real, intake: real, maxDeficit: real)

  datatype HeatTuning = HeatTuning(neutral: real, gain: real, tau: real, resting: real, maxOffset: real, amplification: real)

  datatype LesionTuning = LesionTuning(exponent: real, minDays: real, threshold: real, siteOf: string -> Site)

  datatype PainTuning = PainTuning(fromSoreness: real, fromInjury: real, analgesiaTau: real, responseTau: real)

  /** The file, and the three functions of the mathematical library the channels call. */
  datatype Tuning = Tuning(
    decay: (real, real) -> real, exp: real -> real, power: (real, real) -> real,
    stepHours: real, maxIntervalHours: real, mass: Positive, recovery: real,
    reserve: ReserveTuning, recoveryTau: Site -> real, accrual: real, central: CentralTuning, sleep: SleepTuning,
    energy: EnergyTuning, water: WaterTuning, heat: HeatTuning,
    soreness: Params, resolutionTau: real, boutTau: real,
    lesions: LesionTuning, acuteTau: real, chronicTau: real, pain: PainTuning)

  /** A decay is a factor in (0, 1]. */
  ghost predicate IsDecay(decay: (real, real) -> real) {
    forall dt, tau :: dt >= 0.0 && tau > 0.0 ==> 0.0 < decay(dt, tau) <= 1.0
  }

  /** What the channels take for granted about the file. */
  ghost predicate Reasonable(p: Tuning) {
    && IsDecay(p.decay)
    && p.stepHours > 0.0 && p.maxIntervalHours > 0.0
    && p.reserve.atLow > 0.0 && p.reserve.atModerate > 0.0 && p.reserve.atHeavy > 0.0
    && p.reserve.depletion >= 0.0 && p.reserve.reference > 0.0
    && p.water.maxDeficit >= 0.0 && p.heat.maxOffset >= 0.0
    && Sensible(p.soreness) && p.resolutionTau > 0.0 && p.boutTau > 0.0
    && p.acuteTau > 0.0 && p.chronicTau > 0.0
  }

  // ----- arithmetic -----

  /** The least time constant, and the least difference of instants, the channels tell from zero. */
  const MICRO := 0.000001
  const NANO := 0.000000001

  function ClampTo(x: real, low: real, high: real): (r: real)
    ensures low <= high ==> low <= r <= high
    ensures low <= x <= high ==> r == x
  {
    if x < low then low else if x > high then high else x
  }

  function Max(a: real, b: real): (r: real)
    ensures r >= a && r >= b && (r == a || r == b)
  {
    if a < b then b else a
  }

  /** First-order approach to a target. */
  function Approach(current: real, target: real, factor: real): real {
    target + Part(current - target, factor)
  }

  function Part(x: real, factor: real): real {
    x * factor
  }

  /** The remainder by 24, as Python's `%` takes it. */
  function TimeOfDay(x: real): (r: real)
    ensures 0.0 <= r < 24.0
  {
    x - 24.0 * (x / 24.0).Floor as real
  }

  // ----- the channels -----

  /** Linear between the three anchors of the file. */
  function ReconstitutionTau(p: ReserveTuning, recovery: real): real {
    var moderateAt, r := ClampTo(p.moderateAt, MICRO, 1.0 - MICRO), ClampTo(recovery, 0.0, 1.0);
    if r <= moderateAt then p.atLow + Part(p.atModerate - p.atLow, r / moderateAt)
    else p.atModerate + Part(p.atHeavy - p.atModerate, (r - moderateAt) / (1.0 - moderateAt))
  }

  function TauAt(p: ReserveTuning, intensity: real): real {
    var share := if p.critical > 0.0 then intensity / p.critical else 1.0;
    ReconstitutionTau(p, if share < 1.0 then share else 1.0)
  }

  function Drained(p: ReserveTuning, capacity: real, intensity: real, dt: real): real {
    capacity * p.depletion * (intensity - p.critical) * dt
  }

  /** Work above critical power drains the reserve, work below it reconstitutes it. */
  function Remaining(p: Tuning, r: Reserve, intensity: real, dt: real): real {
    if intensity > p.reserve.critical then ClampTo(r.remaining - Drained(p.reserve, r.capacity, intensity, dt), 0.0, r.capacity)
    else ClampTo(Approach(r.remaining, r.capacity, p.decay(dt * 3600.0, TauAt(p.reserve, intensity))), 0.0, r.capacity)
  }

  function NewReserve(p: Tuning, r: Reserve, intensity: real, dt: real): Reserve {
    Reserve(Remaining(p, r, intensity, dt), r.capacity, TauAt(p.reserve, intensity))
  }

  /** Recovery first, then accrual towards saturation. */
  function Tired(current: real, recovery: real, accrual: real): real {
    var recovered := current * recovery;
    recovered + (1.0 - recovered) * (1.0 - accrual)
  }

  function AccrualFactor(p: Tuning, drive: real, dt: real): real {
    if drive > 0.0 then p.decay(dt, 1.0 / drive) else 1.0
  }

  function RecoveryFactor(p: Tuning, tau: real, dt: real): real {
    p.decay(dt, Max(MICRO, tau))
  }

  function PeripheralDrive(p: Tuning, x: Exposure, site: Site): real {
    p.accrual * Regional(x, site)
  }

  function PeripheralTau(p: Tuning, x: Exposure, site: Site): real {
    x.traits.recovery * p.recoveryTau(site)
  }

  function PeripheralAt(p: Tuning, x: Exposure, current: real, site: Site, dt: real): real {
    ClampTo(Tired(current, RecoveryFactor(p, PeripheralTau(p, x, site), dt),
                  AccrualFactor(p, PeripheralDrive(p, x, site), dt)), 0.0, 1.0)
  }

  function At(m: map<Site, real>, site: Site): real {
    if site in m then m[site] else 0.0
  }

  function Peripherals(p: Tuning, x: Exposure, current: map<Site, real>, dt: real): map<Site, real> {
    map site: Site :: PeripheralAt(p, x, At(current, site), site, dt)
  }

  /** Homeostatic pressure saturates in debt and in the hours awake beyond a normal day. */
  function ProcessS(p: SleepTuning, s: Sleep): real {
    var homeostatic: NonNegative := s.debt + Max(0.0, s.awake - p.normalWaking);
    homeostatic / (homeostatic + p.halfSaturation)
  }

  function Modulation(p: SleepTuning, phase: real): real {
    1.0 + p.gain * (2.0 * p.circadian(phase) - 1.0)
  }

  /** Modulated around the circadian trough. */
  function SleepPressure(p: SleepTuning, s: Sleep): real {
    ClampTo(Part(ProcessS(p, s), Modulation(p, s.phase)), 0.0, 1.0)
  }

  function CentralTau(p: CentralTuning, x: Exposure): real {
    if x.environment.asleep then p.tauAsleep else p.tauAwake
  }

  function CentralDrive(p: CentralTuning, x: Exposure, pressure: real): real {
    p.accrual * Intensity(x) + p.fromPressure * pressure
  }

  function Central(p: Tuning, x: Exposure, current: real, pressure: real, dt: real): real {
    ClampTo(Tired(current, RecoveryFactor(p, CentralTau(p.central, x), dt),
                  AccrualFactor(p, CentralDrive(p.central, x, pressure), dt)), 0.0, 1.0)
  }

  /** The same sleep goes on if it is of the same quality and ended now. */
  predicate Continues(t: real, last: Option<LastSleep>, quality: Quality) {
    last.Some? && last.value.quality == quality && -NANO < last.value.end - t < NANO
  }

  function Slept(t: real, last: Option<LastSleep>, quality: Quality, dt: real): LastSleep {
    LastSleep(if Continues(t, last, quality) then last.value.start else t, t + dt, quality)
  }

  /** Debt grows at all hours and is repaid asleep; the phase moves whatever the body does. */
  function NewSleep(p: SleepTuning, t: real, s: Sleep, e: Environment, dt: real): Sleep {
    var owed, phase := s.debt + p.need / 24.0 * dt, TimeOfDay(s.phase + dt);
    if e.asleep then
      Sleep(ClampTo(owed - dt * p.efficiency(e.quality), 0.0, p.cap), 0.0, phase, Some(Slept(t, s.last, e.quality, dt)))
    else
      Sleep(ClampTo(owed, 0.0, p.cap), s.awake + dt, phase, s.last)
  }

  function Thirst(p: WaterTuning, deficit: real): real {
    Max(0.0, deficit - p.threshold)
  }

  function Burn(p: Tuning, intensity: real, deficit: real): real {
    (p.energy.resting + p.energy.coefficient * (p.exp(p.energy.exponent * intensity) - 1.0))
    * (1.0 + p.energy.perPercent * Thirst(p.water, deficit))
  }

  function NewEnergy(p: Tuning, x: Exposure, t: real, energy: Energy, deficit: real, dt: real): Energy {
    var fed, scale := x.environment.carbohydrate, x.traits.mass / p.mass;
    var spent := (p.energy.restingKcal / 24.0 + p.energy.workKcal * Intensity(x)) * scale;
    var eaten := p.energy.intakeKcal / 24.0 * fed * scale;
    Energy(ClampTo(energy.substrate + (p.energy.repletion * fed - Burn(p, Intensity(x), deficit)) * dt, 0.0, 1.0),
           Approach(energy.balance, 0.0, p.decay(dt, p.energy.window)) + (eaten - spent) * dt,
           if fed > 0.0 then Some(t + dt) else energy.lastMeal)
  }

  function SweatRate(p: Tuning, x: Exposure): real {
    p.water.perDegree
    * (Max(0.0, x.environment.wbgt - p.heat.neutral) + p.water.workDegrees * Intensity(x))
    * x.environment.workRest * x.environment.clothing
  }

  function NewDeficit(p: Tuning, x: Exposure, deficit: real, dt: real): real {
    ClampTo(deficit + (SweatRate(p, x) - p.water.intake * x.environment.fluid) * dt, 0.0, p.water.maxDeficit)
  }

  function HeatLoad(p: Tuning, x: Exposure, deficit: real): real {
    Max(0.0, x.environment.wbgt - p.heat.neutral) / 10.0
    * (p.heat.resting + Intensity(x)) * x.environment.workRest * x.environment.clothing
    * (1.0 + p.heat.amplification * Thirst(p.water, deficit))
  }

  /** The environment is written down as it was. */
  function NewThermal(p: Tuning, x: Exposure, h: Thermal, deficit: real, dt: real): Thermal {
    var equilibrium := p.heat.gain * HeatLoad(p, x, deficit) * p.heat.tau;
    Thermal(ClampTo(Approach(h.offset, equilibrium, RecoveryFactor(p, p.heat.tau, dt)), 0.0, p.heat.maxOffset),
            x.environment.wbgt, x.environment.workRest, x.environment.clothing)
  }

  function IntervalOf(p: Tuning, x: Exposure, dt: real): Interval {
    Interval(dt, p.decay(dt, p.resolutionTau), p.decay(dt, p.boutTau), x.load.activity, x.load.eccentric, site => Regional(x, site))
  }

  /** What an hour heals of a lesion, as a fraction. */
  function HealingRate(p: Tuning, x: Exposure, i: Injury): real {
    var days: Positive := Max(p.lesions.minDays, i.expectedDays);
    p.power(p.recovery / x.traits.recovery, p.lesions.exponent) / (days * 24.0)
  }

  function Gain(p: Tuning, x: Exposure, i: Injury, dt: real): real {
    HealingRate(p, x, i) * dt
  }

  /** Time heals, and load above the threshold sets back. */
  function Progress(p: Tuning, x: Exposure, i: Injury, dt: real): real {
    var load, healed := Regional(x, p.lesions.siteOf(i.region)), i.progress + Gain(p, x, i, dt);
    ClampTo(if load > p.lesions.threshold then healed - i.setback * load * dt else healed, 0.0, 1.0)
  }

  function Lesion(p: Tuning, x: Exposure, i: Injury, dt: real): Option<Injury> {
    if Progress(p, x, i, dt) >= 1.0 then None else Some(i.(progress := Progress(p, x, i, dt)))
  }

  /** A lesion that has healed leaves the body. */
  function Lesions(p: Tuning, x: Exposure, injuries: seq<Injury>, dt: real): seq<Injury> {
    if injuries == [] then []
    else
      var lesion := Lesion(p, x, injuries[|injuries| - 1], dt);
      Lesions(p, x, injuries[..|injuries| - 1], dt) + if lesion.Some? then [lesion.value] else []
  }

  method AdvanceInjuries(p: Tuning, x: Exposure, injuries: seq<Injury>, dt: real) returns (open: seq<Injury>)
    ensures open == Lesions(p, x, injuries, dt)
  {
    hide Progress;
    open := [];
    for k := 0 to |injuries|
      invariant open == Lesions(p, x, injuries[..k], dt)
    {
      assert injuries[..k + 1][..k] == injuries[..k];
      var progress := Progress(p, x, injuries[k], dt);
      if progress < 1.0 {
        open := open + [injuries[k].(progress := progress)];
      }
    }
    assert injuries[..|injuries|] == injuries;
  }

  function LesionPain(p: PainTuning, i: Injury): real {
    p.fromInjury * i.atRest * (1.0 - i.progress)
  }

  function FromSoreness(p: PainTuning, expressed: real): real {
    p.fromSoreness * expressed
  }

  /** The worst of what soreness gives and what each lesion of the region gives. */
  function WorstPain(p: Tuning, soreness: real, injuries: seq<Injury>, site: Site): real {
    if injuries == [] then soreness
    else
      var last, worst := injuries[|injuries| - 1], WorstPain(p, soreness, injuries[..|injuries| - 1], site);
      if p.lesions.siteOf(last.region) == site then Max(worst, LesionPain(p.pain, last)) else worst
  }

  function Dulled(pain: real, analgesia: real): real {
    pain * (1.0 - analgesia)
  }

  function PainTarget(p: Tuning, expressed: real, injuries: seq<Injury>, site: Site, analgesia: real): real {
    ClampTo(Dulled(WorstPain(p, FromSoreness(p.pain, expressed), injuries, site), analgesia), 0.0, 1.0)
  }

  method Target(p: Tuning, expressed: real, injuries: seq<Injury>, site: Site, analgesia: real) returns (target: real)
    ensures target == PainTarget(p, expressed, injuries, site, analgesia)
  {
    hide LesionPain, Dulled, ClampTo, FromSoreness;
    target := FromSoreness(p.pain, expressed);
    for k := 0 to |injuries|
      invariant target == WorstPain(p, FromSoreness(p.pain, expressed), injuries[..k], site)
    {
      assert injuries[..k + 1][..k] == injuries[..k];
      if p.lesions.siteOf(injuries[k].region) == site {
        target := Max(target, LesionPain(p.pain, injuries[k]));
      }
    }
    assert injuries[..|injuries|] == injuries;
    return ClampTo(Dulled(target, analgesia), 0.0, 1.0);
  }

  function PainAt(p: Tuning, current: real, target: real, dt: real): real {
    ClampTo(Approach(current, target, RecoveryFactor(p, p.pain.responseTau, dt)), 0.0, 1.0)
  }

  function Pains(p: Tuning, current: map<Site, real>, soreness: Soreness, injuries: seq<Injury>, analgesia: real, dt: real):
    map<Site, real>
  {
    map site: Site ::
      PainAt(p, At(current, site), PainTarget(p, RegionOf(soreness, site).expressed, injuries, site, analgesia), dt)
  }

  /** The worst over the regions, or zero if there is none. */
  function Worst(m: map<Site, real>, sites: seq<Site>): real {
    if sites == [] then 0.0
    else if |sites| == 1 then At(m, sites[0])
    else Max(Worst(m, sites[..|sites| - 1]), At(m, sites[|sites| - 1]))
  }

  function Fading(p: Tuning, analgesia: real, dt: real): real {
    analgesia * RecoveryFactor(p, p.pain.analgesiaTau, dt)
  }

  function NewPain(p: Tuning, pain: Pain, soreness: Soreness, injuries: seq<Injury>, dt: real): Pain {
    var analgesia := Fading(p, pain.analgesia, dt);
    var regions := Pains(p, pain.regions, soreness, injuries, analgesia, dt);
    Pain(regions, Worst(regions, SITES), ClampTo(analgesia, 0.0, 1.0))
  }

  function LoadDose(x: Exposure, dt: real): real {
    Intensity(x) * dt
  }

  function Loaded(p: Tuning, current: real, tau: real, dose: real, dt: real): real {
    Max(0.0, current * p.decay(dt, tau) + dose)
  }

  /** One integration step: the channels in order, each from what the earlier ones left, then load
      accounting, then pain, then time. */
  function Step(p: Tuning, x: Exposure, b: Body, dt: real): Body
    requires Sensible(p.soreness)
  {
    if dt == 0.0 then b
    else
      var deficit := NewDeficit(p, x, b.deficit, dt);
      var soreness := Advanced(p.soreness, b.t, IntervalOf(p, x, dt), b.soreness);
      var injuries := Lesions(p, x, b.injuries, dt);
      Body(b.t + dt,
           NewReserve(p, b.reserve, Intensity(x), dt),
           Peripherals(p, x, b.peripheral, dt),
           Central(p, x, b.central, SleepPressure(p.sleep, b.sleep), dt),
           Loaded(p, b.acute, p.acuteTau, LoadDose(x, dt), dt),
           Loaded(p, b.chronic, p.chronicTau, LoadDose(x, dt), dt),
           NewSleep(p.sleep, b.t, b.sleep, x.environment, dt),
           NewEnergy(p, x, b.t, b.energy, b.deficit, dt),
           deficit,
           NewThermal(p, x, b.thermal, deficit, dt),
           soreness,
           injuries,
           NewPain(p, b.pain, soreness, injuries, dt))
  }

  // ----- advancing -----

  datatype Error = BackwardsClock | IntervalTooLong | AsleepUnderLoad | SleepEndsBeforeItStarts

  /** A sleep goes on although it began after the step ends; its constructor refuses it. */
  predicate Oversleeps(x: Exposure, b: Body, dt: real) {
    && x.environment.asleep && Continues(b.t, b.sleep.last, x.environment.quality)
    && b.sleep.last.value.start > b.t + dt
  }

  function Iterate(p: Tuning, x: Exposure, b: Body, dt: real, n: nat): Body
    requires Sensible(p.soreness)
  {
    if n == 0 then b else Step(p, x, Iterate(p, x, b, dt, n - 1), dt)
  }

  function StepCount(p: Tuning, dt: real): (n: nat)
    requires p.stepHours > 0.0
    ensures n >= 1
  {
    var n := Ceiling(dt / p.stepHours - NANO);
    if n > 1 then n else 1
  }

  predicate ClaimsBoth(x: Exposure) {
    x.environment.asleep && x.load.intensity > 0.0
  }

  /** Moves a body forward by equal steps no longer than the integration step. */
  method Advance(p: Tuning, x: Exposure, b: Body, dt: real) returns (r: Result<Body, Error>)
    requires Reasonable(p)
    ensures r == AdvanceBody(p, x, b, dt)
  {
    assert p.stepHours > 0.0;
    if dt < 0.0 {
      return Err(BackwardsClock);
    }
    if dt == 0.0 {
      return Ok(b);
    }
    if dt > p.maxIntervalHours {
      return Err(IntervalTooLong);
    }
    if ClaimsBoth(x) {
      return Err(AsleepUnderLoad);
    }
    hide Iterate, StepCount, ClaimsBoth, Sensible, Oversleeps;
    var steps := StepCount(p, dt);
    assert StepLength(p, dt) > 0.0;
    r := Integrate(p, x, b, StepLength(p, dt), steps);
  }

  /** Every step may refuse the body it is given; after the first, none does. */
  method Integrate(p: Tuning, x: Exposure, b: Body, step: real, steps: nat) returns (r: Result<Body, Error>)
    requires Sensible(p.soreness) && step > 0.0 && steps >= 1
    ensures r == if Oversleeps(x, b, step) then Err(SleepEndsBeforeItStarts) else Ok(Iterate(p, x, b, step, steps))
  {
    hide Step, Sensible, Oversleeps;
    var state := b;
    for k := 0 to steps
      invariant state == Iterate(p, x, b, step, k)
      invariant k > 0 ==> !Oversleeps(x, b, step) && !Oversleeps(x, state, step)
    {
      if Oversleeps(x, state, step) {
        return Err(SleepEndsBeforeItStarts);
      }
      StepIsRested(p, x, state, step);
      state := Step(p, x, state, step);
    }
    return Ok(state);
  }

  /** Once a step has gone through, a sleep it took ends now. */
  lemma StepIsRested(p: Tuning, x: Exposure, b: Body, dt: real)
    requires Sensible(p.soreness) && dt > 0.0 && !Oversleeps(x, b, dt)
    ensures !Oversleeps(x, Step(p, x, b, dt), dt)
  {
    StepParts(p, x, b, dt);
  }

  lemma StepParts(p: Tuning, x: Exposure, b: Body, dt: real)
    requires Sensible(p.soreness) && dt != 0.0
    ensures Step(p, x, b, dt).injuries == Lesions(p, x, b.injuries, dt)
    ensures Step(p, x, b, dt).sleep == NewSleep(p.sleep, b.t, b.sleep, x.environment, dt)
    ensures Step(p, x, b, dt).t == b.t + dt
  {
  }

  ghost function AdvanceBody(p: Tuning, x: Exposure, b: Body, dt: real): Result<Body, Error>
    requires Reasonable(p)
  {
    if dt < 0.0 then Err(BackwardsClock)
    else if dt == 0.0 then Ok(b)
    else if dt > p.maxIntervalHours then Err(IntervalTooLong)
    else if ClaimsBoth(x) then Err(AsleepUnderLoad)
    else if Oversleeps(x, b, StepLength(p, dt)) then Err(SleepEndsBeforeItStarts)
    else Ok(Iterate(p, x, b, StepLength(p, dt), StepCount(p, dt)))
  }

  /** The length of each of the equal steps. */
  function StepLength(p: Tuning, dt: real): real
    requires p.stepHours > 0.0
  {
    dt / StepCount(p, dt) as real
  }

  lemma SorenessIsSensible(p: Tuning)
    requires Reasonable(p)
    ensures Sensible(p.soreness)
  {
  }

  // ----- composition -----

  /** The length of a whole number of integration steps. */
  function Hours(p: Tuning, n: nat): real {
    n as real * p.stepHours
  }

  lemma {:induction false} IterateAdds(p: Tuning, x: Exposure, b: Body, dt: real, m: nat, n: nat)
    requires Sensible(p.soreness)
    ensures Iterate(p, x, b, dt, m + n) == Iterate(p, x, Iterate(p, x, b, dt, m), dt, n)
  {
    hide Step;
    if n > 0 {
      IterateAdds(p, x, b, dt, m, n - 1);
    }
  }

  /** A whole number of steps is that many steps of the integration step itself, unless the first is
      refused. */
  lemma WholeSteps(p: Tuning, x: Exposure, b: Body, n: nat)
    requires Reasonable(p) && Hours(p, n) <= p.maxIntervalHours && !ClaimsBoth(x)
    ensures AdvanceBody(p, x, b, Hours(p, n))
         == if n > 0 && Oversleeps(x, b, p.stepHours) then Err(SleepEndsBeforeItStarts) else Ok(Iterate(p, x, b, p.stepHours, n))
  {
    hide Iterate, Ceiling, ClaimsBoth, Oversleeps;
    if n > 0 {
      CountOfWhole(p, n);
    } else {
      NoSteps(p, x, b);
    }
  }

  lemma NoSteps(p: Tuning, x: Exposure, b: Body)
    requires Sensible(p.soreness)
    ensures Iterate(p, x, b, p.stepHours, 0) == b
  {
  }

  lemma CountOfWhole(p: Tuning, n: nat)
    requires p.stepHours > 0.0 && n > 0
    ensures StepCount(p, Hours(p, n)) == n && StepLength(p, Hours(p, n)) == p.stepHours && Hours(p, n) > 0.0
  {
    var h, dt := p.stepHours, Hours(p, n);
    Scale(0.0, n as real, h);
    var x := dt / h;
    assert x * h == n as real * h;
    if x < n as real {
      Scale(x, n as real, h);
    } else if x > n as real {
      Scale(n as real, x, h);
    }
    assert Ceiling(x - NANO) == n;
    var y := dt / n as real;
    assert y * n as real == h * n as real;
    if y < h {
      Scale(y, h, n as real);
    } else if y > h {
      Scale(h, y, n as real);
    }
  }

  /** Advancing m steps and then n more is advancing m + n at once, within the cap; and what the
      one refuses the other does. */
  lemma AdvanceComposes(p: Tuning, x: Exposure, b: Body, m: nat, n: nat)
    requires Reasonable(p) && !ClaimsBoth(x)
    requires Hours(p, m + n) <= p.maxIntervalHours
    ensures AdvanceBody(p, x, b, Hours(p, m + n))
         == match AdvanceBody(p, x, b, Hours(p, m))
            case Err(e) => Err(e)
            case Ok(between) => AdvanceBody(p, x, between, Hours(p, n))
  {
    hide AdvanceBody, Iterate, Hours, ClaimsBoth, Oversleeps, IsDecay;
    PartIsShorter(p, m, m + n);
    PartIsShorter(p, n, m + n);
    WholeSteps(p, x, b, m);
    WholeSteps(p, x, b, m + n);
    var between := Iterate(p, x, b, p.stepHours, m);
    WholeSteps(p, x, between, n);
    IterateAdds(p, x, b, p.stepHours, m, n);
    if m == 0 {
      NoSteps(p, x, b);
    } else if !Oversleeps(x, b, p.stepHours) {
      IterateIsRested(p, x, b, p.stepHours, m);
    }
  }

  lemma {:induction false} IterateIsRested(p: Tuning, x: Exposure, b: Body, dt: real, n: nat)
    requires Sensible(p.soreness) && dt > 0.0 && !Oversleeps(x, b, dt)
    ensures !Oversleeps(x, Iterate(p, x, b, dt, n), dt)
  {
    hide Step, Oversleeps;
    if n > 0 {
      IterateIsRested(p, x, b, dt, n - 1);
      StepIsRested(p, x, Iterate(p, x, b, dt, n - 1), dt);
    }
  }

  lemma PartIsShorter(p: Tuning, m: nat, n: nat)
    requires m <= n && p.stepHours > 0.0
    ensures Hours(p, m) <= Hours(p, n)
  {
    if m < n {
      Scale(m as real, n as real, p.stepHours);
    }
  }

  /** A first-order approach composes over subdivided intervals when the decay does. */
  lemma ApproachComposes(current: real, target: real, f: real, g: real)
    ensures Approach(Approach(current, target, f), target, g) == Approach(current, target, f * g)
  {
    var gap := current - target;
    assert Part(gap, f) * g == gap * (f * g);
  }

  // ----- a body at rest -----

  const NONE: map<Site, real> := map[Legs := 0.0, Arms := 0.0, Grip := 0.0, Core := 0.0]

  /** A rested body, at the given hour of the world and of the local day. */
  function InitialBody(p: Tuning, traits: Traits, t: real, e: Environment, phase: real): Body {
    var capacity := p.reserve.reference * (traits.mass / p.mass);
    var rested := Region(Zeros(Stages(p.soreness)), [], 0.0);
    Body(t, Reserve(capacity, capacity, ReconstitutionTau(p.reserve, 0.0)), NONE, 0.0, 0.0, 0.0,
         Sleep(0.0, 0.0, TimeOfDay(phase), None), Energy(1.0, 0.0, None), 0.0,
         Thermal(0.0, e.wbgt, e.workRest, e.clothing),
         Soreness(map[Legs := rested, Arms := rested, Grip := rested, Core := rested], map[]),
         [], Pain(NONE, 0.0, 0.0))
  }
}

/** Every body that can be reached is one the declared domains allow, and which of the channels'
    clamps are needed for that. */
module DynamicsProperties {
  import opened Domain
  import opened Soreness
  import opened SorenessProperties
  import opened Dynamics

  // ----- factors -----

  /** A part of something is no more than the whole. */
  lemma PartOf(x: real, f: real)
    requires x >= 0.0 && Fraction(f)
    ensures 0.0 <= x * f <= x
  {
    ProductIsNonNegative(x, f);
    ProductIsNonNegative(x, 1.0 - f);
    assert x * (1.0 - f) == x - x * f;
  }

  lemma ProductIsNonPositive(x: real, y: real)
    requires x <= 0.0 && y >= 0.0
    ensures x * y <= 0.0
  {
  }

  lemma NegativePartOf(x: real, f: real)
    requires x <= 0.0 && Fraction(f)
    ensures x <= Part(x, f) <= 0.0
  {
    ProductIsNonPositive(x, f);
    ProductIsNonPositive(x, 1.0 - f);
    assert x * (1.0 - f) == x - x * f;
  }

  lemma PositivePartOf(x: real, f: real)
    requires x >= 0.0 && Fraction(f)
    ensures 0.0 <= Part(x, f) <= x
  {
    PartOf(x, f);
  }

  lemma PartIsBetween(x: real, f: real)
    requires Fraction(f)
    ensures x >= 0.0 ==> 0.0 <= Part(x, f) <= x
    ensures x <= 0.0 ==> x <= Part(x, f) <= 0.0
  {
    hide Part;
    if x >= 0.0 {
      PositivePartOf(x, f);
    }
    if x <= 0.0 {
      NegativePartOf(x, f);
    }
  }

  /** An approach stays between where it was and where it goes. */
  lemma ApproachStaysBetween(current: real, target: real, factor: real)
    requires Fraction(factor)
    ensures current <= target ==> current <= Approach(current, target, factor) <= target
    ensures target <= current ==> target <= Approach(current, target, factor) <= current
  {
    hide Part;
    PartIsBetween(current - target, factor);
  }

  lemma TiredIsAFraction(current: real, recovery: real, accrual: real)
    requires Fraction(current) && Fraction(recovery) && Fraction(accrual)
    ensures Fraction(Tired(current, recovery, accrual))
  {
    PartOf(current, recovery);
    PartOf(1.0 - current * recovery, 1.0 - accrual);
  }

  lemma DecayIsAFactor(p: Tuning, dt: real, tau: real)
    requires IsDecay(p.decay) && dt >= 0.0 && tau > 0.0
    ensures Fraction(p.decay(dt, tau))
  {
  }

  lemma RecoveryIsAFactor(p: Tuning, tau: real, dt: real)
    requires IsDecay(p.decay) && dt >= 0.0
    ensures Fraction(RecoveryFactor(p, tau, dt))
  {
    DecayIsAFactor(p, dt, Max(MICRO, tau));
  }

  lemma InverseIsPositive(x: real)
    requires x > 0.0
    ensures 1.0 / x > 0.0
  {
  }

  lemma AccrualIsAFactor(p: Tuning, drive: real, dt: real)
    requires IsDecay(p.decay) && dt >= 0.0
    ensures Fraction(AccrualFactor(p, drive, dt))
  {
    if drive > 0.0 {
      InverseIsPositive(drive);
      DecayIsAFactor(p, dt, 1.0 / drive);
    }
  }

  lemma QuotientIsAFraction(a: real, b: real)
    requires 0.0 <= a <= b && b > 0.0
    ensures Fraction(a / b)
  {
    var x := a / b;
    assert x * b == a;
    if x < 0.0 {
      Scale(x, 0.0, b);
    } else if x > 1.0 {
      Scale(1.0, x, b);
    }
  }

  lemma QuotientsCompare(a: real, a': real, b: real)
    requires a <= a' && b > 0.0
    ensures a / b <= a' / b
  {
    var x, y := a / b, a' / b;
    assert x * b == a && y * b == a';
    if y < x {
      Scale(y, x, b);
    }
  }

  // ----- the reserve -----

  /** The time constant is the three anchors where they stand, lies between them, and never falls
      with the intensity when they do not. */
  lemma TauRises(p: ReserveTuning, r: real, r': real)
    requires p.atLow <= p.atModerate <= p.atHeavy
    ensures p.atLow <= ReconstitutionTau(p, r) <= p.atHeavy
    ensures r <= r' ==> ReconstitutionTau(p, r) <= ReconstitutionTau(p, r')
    ensures ReconstitutionTau(p, 0.0) == p.atLow && ReconstitutionTau(p, 1.0) == p.atHeavy
  {
    hide Part;
    TauIsBetween(p, r);
    TauIsBetween(p, r');
    TauAtTheEnds(p);
    if r <= r' {
      var m := ClampTo(p.moderateAt, MICRO, 1.0 - MICRO);
      var c, c' := ClampTo(r, 0.0, 1.0), ClampTo(r', 0.0, 1.0);
      if c' <= m {
        QuotientsCompare(c, c', m);
        PartsCompare(p.atModerate - p.atLow, c / m, c' / m);
      } else if c > m {
        QuotientsCompare(c - m, c' - m, 1.0 - m);
        PartsCompare(p.atHeavy - p.atModerate, (c - m) / (1.0 - m), (c' - m) / (1.0 - m));
      }
    }
  }

  lemma PartsCompare(x: real, f: real, g: real)
    requires x >= 0.0 && f <= g
    ensures Part(x, f) <= Part(x, g)
  {
    ProductIsNonNegative(x, g - f);
  }

  lemma TauAtTheEnds(p: ReserveTuning)
    ensures ReconstitutionTau(p, 0.0) == p.atLow && ReconstitutionTau(p, 1.0) == p.atHeavy
  {
    var m := ClampTo(p.moderateAt, MICRO, 1.0 - MICRO);
    assert 0.0 / m == 0.0 && (1.0 - m) / (1.0 - m) == 1.0;
  }

  lemma TauIsBetween(p: ReserveTuning, r: real)
    ensures var tau, m := ReconstitutionTau(p, r), ClampTo(p.moderateAt, MICRO, 1.0 - MICRO);
            && (ClampTo(r, 0.0, 1.0) <= m ==> p.atLow <= tau <= p.atModerate || p.atModerate <= tau <= p.atLow)
            && (ClampTo(r, 0.0, 1.0) > m ==> p.atModerate <= tau <= p.atHeavy || p.atHeavy <= tau <= p.atModerate)
  {
    hide Part;
    var m, c := ClampTo(p.moderateAt, MICRO, 1.0 - MICRO), ClampTo(r, 0.0, 1.0);
    if c <= m {
      QuotientIsAFraction(c, m);
      PartIsBetween(p.atModerate - p.atLow, c / m);
    } else {
      QuotientIsAFraction(c - m, 1.0 - m);
      PartIsBetween(p.atHeavy - p.atModerate, (c - m) / (1.0 - m));
    }
  }

  lemma TauIsPositive(p: Tuning, intensity: real)
    requires Reasonable(p)
    ensures TauAt(p.reserve, intensity) > 0.0 && ReconstitutionTau(p.reserve, 0.0) > 0.0
  {
    hide ReconstitutionTau;
    var share := if p.reserve.critical > 0.0 then intensity / p.reserve.critical else 1.0;
    TauIsBetween(p.reserve, if share < 1.0 then share else 1.0);
    TauIsBetween(p.reserve, 0.0);
  }

  /** The clamp on reconstitution changes nothing: the value is already between where it was and
      the capacity. */
  lemma ReconstitutionClampIsIdle(p: Tuning, r: Reserve, intensity: real, dt: real)
    requires Reasonable(p) && dt >= 0.0 && ValidReserve(r) && intensity <= p.reserve.critical
    ensures Remaining(p, r, intensity, dt)
         == Approach(r.remaining, r.capacity, p.decay(dt * 3600.0, TauAt(p.reserve, intensity)))
    ensures r.remaining <= Remaining(p, r, intensity, dt) <= r.capacity
  {
    hide TauAt, Approach;
    var tau := TauAt(p.reserve, intensity);
    TauIsPositive(p, intensity);
    DecayIsAFactor(p, dt * 3600.0, tau);
    ApproachStaysBetween(r.remaining, r.capacity, p.decay(dt * 3600.0, tau));
  }

  lemma DrainIsBounded(p: Tuning, r: Reserve, intensity: real, dt: real)
    requires Reasonable(p) && dt >= 0.0 && ValidReserve(r)
    ensures ValidReserve(NewReserve(p, r, intensity, dt)) && NewReserve(p, r, intensity, dt).capacity == r.capacity
    ensures intensity > p.reserve.critical ==> NewReserve(p, r, intensity, dt).remaining <= r.remaining
  {
    hide TauAt, Approach, IsDecay;
    TauIsPositive(p, intensity);
    if intensity > p.reserve.critical {
      ProductIsNonNegative(r.capacity, p.reserve.depletion);
      ProductIsNonNegative(r.capacity * p.reserve.depletion, intensity - p.reserve.critical);
      ProductIsNonNegative(r.capacity * p.reserve.depletion * (intensity - p.reserve.critical), dt);
    }
  }

  // ----- fatigue -----

  lemma PeripheralClampIsIdle(p: Tuning, x: Exposure, current: real, site: Site, dt: real)
    requires Reasonable(p) && dt >= 0.0 && Fraction(current)
    ensures PeripheralAt(p, x, current, site, dt)
         == Tired(current, RecoveryFactor(p, PeripheralTau(p, x, site), dt),
                  AccrualFactor(p, PeripheralDrive(p, x, site), dt))
    ensures Fraction(PeripheralAt(p, x, current, site, dt))
  {
    hide Tired, AccrualFactor, RecoveryFactor, PeripheralDrive, PeripheralTau, IsDecay;
    var tau := PeripheralTau(p, x, site);
    RecoveryIsAFactor(p, tau, dt);
    AccrualIsAFactor(p, PeripheralDrive(p, x, site), dt);
    TiredIsAFraction(current, RecoveryFactor(p, tau, dt), AccrualFactor(p, PeripheralDrive(p, x, site), dt));
  }

  lemma CentralClampIsIdle(p: Tuning, x: Exposure, current: real, pressure: real, dt: real)
    requires Reasonable(p) && dt >= 0.0 && Fraction(current)
    ensures Central(p, x, current, pressure, dt)
         == Tired(current, RecoveryFactor(p, CentralTau(p.central, x), dt),
                  AccrualFactor(p, CentralDrive(p.central, x, pressure), dt))
    ensures Fraction(Central(p, x, current, pressure, dt))
  {
    hide Tired, AccrualFactor, RecoveryFactor, CentralDrive, CentralTau, IsDecay;
    RecoveryIsAFactor(p, CentralTau(p.central, x), dt);
    AccrualIsAFactor(p, CentralDrive(p.central, x, pressure), dt);
    TiredIsAFraction(current, RecoveryFactor(p, CentralTau(p.central, x), dt),
                     AccrualFactor(p, CentralDrive(p.central, x, pressure), dt));
  }

  lemma PeripheralsAreFractions(p: Tuning, x: Exposure, current: map<Site, real>, dt: real)
    requires Reasonable(p) && dt >= 0.0 && Fractions(current)
    ensures Fractions(Peripherals(p, x, current, dt))
  {
    hide PeripheralAt, Reasonable;
    forall site: Site ensures Fraction(PeripheralAt(p, x, At(current, site), site, dt)) {
      assert site in current;
      PeripheralClampIsIdle(p, x, At(current, site), site, dt);
    }
  }

  // ----- sleep -----

  /** At one hour of the day, neither more debt nor a longer time awake ever lowers sleep pressure. */
  lemma PressureRises(p: SleepTuning, s: Sleep, s': Sleep)
    requires Fraction(p.gain) && Fraction(p.circadian(s.phase))
    requires s.phase == s'.phase && s.debt <= s'.debt && s.awake <= s'.awake
    ensures 0.0 <= SleepPressure(p, s) <= SleepPressure(p, s') <= 1.0
  {
    hide Modulation, ProcessS, Part;
    ProcessRises(p, s, s');
    ModulationIsNonNegative(p, s.phase);
    FactorsCompare(ProcessS(p, s), ProcessS(p, s'), Modulation(p, s.phase));
  }

  lemma ProcessRises(p: SleepTuning, s: Sleep, s': Sleep)
    requires s.debt <= s'.debt && s.awake <= s'.awake
    ensures ProcessS(p, s) <= ProcessS(p, s')
  {
    Saturates(s.debt + Max(0.0, s.awake - p.normalWaking), s'.debt + Max(0.0, s'.awake - p.normalWaking), p.halfSaturation);
  }

  lemma ModulationIsNonNegative(p: SleepTuning, phase: real)
    requires Fraction(p.gain) && Fraction(p.circadian(phase))
    ensures Modulation(p, phase) >= 0.0
  {
    PartOf(p.gain, p.circadian(phase));
    assert p.gain * (2.0 * p.circadian(phase) - 1.0) == 2.0 * (p.gain * p.circadian(phase)) - p.gain;
  }

  lemma FactorsCompare(x: real, y: real, f: real)
    requires x <= y && f >= 0.0
    ensures Part(x, f) <= Part(y, f)
  {
    ProductIsNonNegative(y - x, f);
  }

  lemma Saturates(h: real, h': real, half: real)
    requires 0.0 <= h <= h' && half > 0.0
    ensures h / (h + half) <= h' / (h' + half)
  {
    var y, y' := half / (h + half), half / (h' + half);
    assert y * (h + half) == half && y' * (h' + half) == half;
    Complement(h, half);
    Complement(h', half);
    if y < y' {
      Scale(y, y', h + half);
      ProductIsNonNegative(y', h' - h);
    }
  }

  lemma Complement(a: real, b: real)
    requires a >= 0.0 && b > 0.0
    ensures a / (a + b) == 1.0 - b / (a + b)
  {
    SharesMakeOne(a / (a + b), b / (a + b), a, b, a + b);
  }

  lemma SharesMakeOne(x: real, y: real, a: real, b: real, c: real)
    requires c > 0.0 && x * c == a && y * c == b && a + b == c
    ensures x == 1.0 - y
  {
    RestOf(y, c);
    SameFactor(x, 1.0 - y, c);
  }

  lemma SameFactor(x: real, z: real, c: real)
    requires c > 0.0 && x * c == z * c
    ensures x == z
  {
    if x < z {
      Scale(x, z, c);
    } else if z < x {
      Scale(z, x, c);
    }
  }

  lemma RestOf(y: real, c: real)
    ensures (1.0 - y) * c == c - y * c
  {
  }

  /** The one way a step leaves the declared domains is to go on with a sleep that began after it. */
  lemma SleepIsValidExactly(p: Tuning, x: Exposure, b: Body, dt: real)
    requires dt > 0.0 && ValidSleep(b.sleep)
    ensures ValidSleep(NewSleep(p.sleep, b.t, b.sleep, x.environment, dt)) <==> !Oversleeps(x, b, dt)
    ensures NewSleep(p.sleep, b.t, b.sleep, x.environment, dt).debt <= p.sleep.cap
  {
  }

  // ----- injuries -----

  lemma {:induction false} LesionsStayValid(p: Tuning, x: Exposure, injuries: seq<Injury>, dt: real)
    requires forall i :: i in injuries ==> ValidInjury(i)
    ensures forall i :: i in Lesions(p, x, injuries, dt) ==> ValidInjury(i) && i.progress < 1.0
  {
    hide Lesion, ValidInjury;
    if injuries != [] {
      assert injuries == injuries[..|injuries| - 1] + [injuries[|injuries| - 1]];
      LesionsStayValid(p, x, injuries[..|injuries| - 1], dt);
      LesionStaysValid(p, x, injuries[|injuries| - 1], dt);
    }
  }

  lemma LesionStaysValid(p: Tuning, x: Exposure, i: Injury, dt: real)
    requires ValidInjury(i)
    ensures var r := Lesion(p, x, i, dt); r.Some? ==> ValidInjury(r.value) && r.value.progress < 1.0
  {
    hide Gain, Regional;
  }

  /** A lesion over a number of equal steps, while it lasts. */
  function Mending(p: Tuning, x: Exposure, i: Injury, dt: real, n: nat): Option<Injury> {
    if n == 0 then Some(i)
    else
      var prior := Mending(p, x, i, dt, n - 1);
      if prior.None? then None else Lesion(p, x, prior.value, dt)
  }

  predicate IsUnloaded(p: Tuning, x: Exposure, i: Injury) {
    Regional(x, p.lesions.siteOf(i.region)) <= p.lesions.threshold
  }

  function Mended(p: Tuning, x: Exposure, i: Injury, dt: real, n: nat): real {
    i.progress + n as real * Gain(p, x, i, dt)
  }

  /** Closing a lesion is a matter of time: unloaded, it is gone exactly when its progress and the
      healing of the time that has passed make up one, however the time is divided. */
  lemma {:induction false} LesionCloses(p: Tuning, x: Exposure, i: Injury, dt: real, n: nat)
    requires 0.0 <= i.progress < 1.0 && Gain(p, x, i, dt) >= 0.0 && IsUnloaded(p, x, i)
    ensures Mending(p, x, i, dt, n) == if Mended(p, x, i, dt, n) >= 1.0 then None else Some(i.(progress := Mended(p, x, i, dt, n)))
    ensures Mended(p, x, i, dt, n) >= 0.0
  {
    hide Gain, Regional, Lesion;
    if n > 0 {
      LesionCloses(p, x, i, dt, n - 1);
      OneMoreGain(i.progress, Gain(p, x, i, dt), n);
      assert Mended(p, x, i, dt, n) == Mended(p, x, i, dt, n - 1) + Gain(p, x, i, dt);
      if Mended(p, x, i, dt, n - 1) < 1.0 {
        UnloadedLesion(p, x, i, Mended(p, x, i, dt, n - 1), dt);
      }
    }
  }

  lemma UnloadedLesion(p: Tuning, x: Exposure, i: Injury, progress: real, dt: real)
    requires progress >= 0.0 && Gain(p, x, i, dt) >= 0.0 && IsUnloaded(p, x, i)
    ensures var next := progress + Gain(p, x, i, dt);
            Lesion(p, x, i.(progress := progress), dt) == if next >= 1.0 then None else Some(i.(progress := next))
  {
    hide Gain, Regional;
    GainIsItsOwn(p, x, i, progress, dt);
  }

  lemma GainIsItsOwn(p: Tuning, x: Exposure, i: Injury, progress: real, dt: real)
    ensures Gain(p, x, i.(progress := progress), dt) == Gain(p, x, i, dt)
  {
  }

  lemma OneMoreGain(progress: real, gain: real, n: nat)
    requires n > 0
    ensures progress + n as real * gain == progress + (n - 1) as real * gain + gain
    ensures gain >= 0.0 ==> progress + (n - 1) as real * gain <= progress + n as real * gain
  {
  }

  /** What is left of each lesion, in order. */
  function Left(p: Tuning, x: Exposure, injuries: seq<Injury>, dt: real, n: nat): seq<Injury> {
    if injuries == [] then []
    else
      var lesion := Mending(p, x, injuries[|injuries| - 1], dt, n);
      Left(p, x, injuries[..|injuries| - 1], dt, n) + if lesion.Some? then [lesion.value] else []
  }

  lemma LesionsAppend(p: Tuning, x: Exposure, injuries: seq<Injury>, i: Injury, dt: real)
    ensures Lesions(p, x, injuries + [i], dt)
         == Lesions(p, x, injuries, dt) + if Lesion(p, x, i, dt).Some? then [Lesion(p, x, i, dt).value] else []
  {
    assert (injuries + [i])[..|injuries|] == injuries;
  }

  lemma {:induction false} LeftAfterOneMore(p: Tuning, x: Exposure, injuries: seq<Injury>, dt: real, n: nat)
    ensures Lesions(p, x, Left(p, x, injuries, dt, n), dt) == Left(p, x, injuries, dt, n + 1)
  {
    hide Lesion;
    if injuries != [] {
      var init, last := injuries[..|injuries| - 1], injuries[|injuries| - 1];
      LeftAfterOneMore(p, x, init, dt, n);
      var lesion := Mending(p, x, last, dt, n);
      if lesion.Some? {
        LesionsAppend(p, x, Left(p, x, init, dt, n), lesion.value, dt);
      } else {
        assert Left(p, x, injuries, dt, n) == Left(p, x, init, dt, n);
      }
    }
  }

  lemma {:induction false} LeftAtFirst(p: Tuning, x: Exposure, injuries: seq<Injury>, dt: real)
    ensures Left(p, x, injuries, dt, 0) == injuries
  {
    if injuries != [] {
      LeftAtFirst(p, x, injuries[..|injuries| - 1], dt);
      assert injuries == injuries[..|injuries| - 1] + [injuries[|injuries| - 1]];
    }
  }

  /** The lesions of a body after any number of steps are what is left of each by itself. */
  lemma {:induction false} LesionsMendApart(p: Tuning, x: Exposure, b: Body, dt: real, n: nat)
    requires Sensible(p.soreness) && dt > 0.0
    ensures Iterate(p, x, b, dt, n).injuries == Left(p, x, b.injuries, dt, n)
  {
    hide Step, Lesion, Lesions, Left, Sensible;
    if n == 0 {
      LeftAtFirst(p, x, b.injuries, dt);
    } else {
      LesionsMendApart(p, x, b, dt, n - 1);
      LeftAfterOneMore(p, x, b.injuries, dt, n - 1);
      StepParts(p, x, Iterate(p, x, b, dt, n - 1), dt);
    }
  }

  // ----- pain -----

  /** The loop's result is the worst: no source of pain in the region is above it, and one is it. */
  lemma {:induction false} WorstPainIsWorst(p: Tuning, soreness: real, injuries: seq<Injury>, site: Site)
    ensures var worst := WorstPain(p, soreness, injuries, site);
            && soreness <= worst
            && (forall i :: i in injuries && p.lesions.siteOf(i.region) == site ==> LesionPain(p.pain, i) <= worst)
            && (worst == soreness || exists i :: i in injuries && p.lesions.siteOf(i.region) == site && LesionPain(p.pain, i) == worst)
  {
    hide LesionPain;
    if injuries != [] {
      var init, last := injuries[..|injuries| - 1], injuries[|injuries| - 1];
      assert injuries == init + [last];
      WorstPainIsWorst(p, soreness, init, site);
    }
  }

  /** Soreness gives a part of itself as pain, and no lesion gives more than there is. */
  predicate HurtsInPart(p: PainTuning) {
    Fraction(p.fromSoreness) && p.fromInjury <= 1.0
  }

  lemma WorstPainIsAFraction(p: Tuning, expressed: real, injuries: seq<Injury>, site: Site)
    requires HurtsInPart(p.pain) && Fraction(expressed) && forall i :: i in injuries ==> ValidInjury(i)
    ensures Fraction(WorstPain(p, FromSoreness(p.pain, expressed), injuries, site))
  {
    hide LesionPain, WorstPain, FromSoreness;
    WorstPainIsWorst(p, FromSoreness(p.pain, expressed), injuries, site);
    SorenessIsAFraction(p.pain, expressed);
    forall i | i in injuries ensures LesionPain(p.pain, i) <= 1.0 {
      LesionPainIsBounded(p.pain, i);
    }
  }

  lemma SorenessIsAFraction(p: PainTuning, expressed: real)
    requires HurtsInPart(p) && Fraction(expressed)
    ensures Fraction(FromSoreness(p, expressed))
  {
    PartOf(p.fromSoreness, expressed);
  }

  lemma LesionPainIsBounded(p: PainTuning, i: Injury)
    requires HurtsInPart(p) && ValidInjury(i)
    ensures LesionPain(p, i) <= 1.0
  {
    PainIsBounded(p.fromInjury, i.atRest, 1.0 - i.progress);
  }

  lemma PainIsBounded(gain: real, atRest: real, open: real)
    requires gain <= 1.0 && Fraction(atRest) && Fraction(open)
    ensures gain * atRest * open <= 1.0
  {
    FractionsMultiply(atRest, open);
    ProductIsNonNegative(1.0 - gain, atRest * open);
    assert (1.0 - gain) * (atRest * open) == atRest * open - gain * atRest * open;
  }

  lemma FractionsMultiply(a: real, b: real)
    requires Fraction(a) && Fraction(b)
    ensures Fraction(a * b)
  {
    PartOf(a, b);
  }

  /** What a valid body brings to the pain of one region in one step. */
  datatype Hurt = Hurt(current: real, expressed: real, injuries: seq<Injury>, site: Site, analgesia: real, dt: real)

  ghost predicate IsHurt(h: Hurt) {
    && Fraction(h.current) && Fraction(h.expressed) && Fraction(h.analgesia) && h.dt > 0.0
    && forall i :: i in h.injuries ==> ValidInjury(i)
  }

  function TargetOf(p: Tuning, h: Hurt): real {
    PainTarget(p, h.expressed, h.injuries, h.site, h.analgesia)
  }

  function Unclamped(p: Tuning, h: Hurt): real {
    Dulled(WorstPain(p, FromSoreness(p.pain, h.expressed), h.injuries, h.site), h.analgesia)
  }

  /** Neither clamp on regional pain changes the value. */
  ghost predicate PainIsUnclamped(p: Tuning, h: Hurt) {
    && TargetOf(p, h) == Unclamped(p, h)
    && PainAt(p, h.current, TargetOf(p, h), h.dt) == Approach(h.current, TargetOf(p, h), RecoveryFactor(p, p.pain.responseTau, h.dt))
  }

  /** The clamps on pain never change anything exactly when the gain from soreness is a fraction and
      the one from lesions is no more than one. */
  lemma PainClampsAreIdleExactly(p: Tuning)
    requires IsDecay(p.decay)
    ensures (forall h :: IsHurt(h) ==> PainIsUnclamped(p, h)) <==> HurtsInPart(p.pain)
  {
    hide IsHurt, PainIsUnclamped, IsDecay;
    if HurtsInPart(p.pain) {
      forall h | IsHurt(h) ensures PainIsUnclamped(p, h) {
        PainClampsAreIdle(p, h);
      }
    } else {
      var h := Overdone(p);
      OverdoneIsClamped(p);
    }
  }

  lemma PainClampsAreIdle(p: Tuning, h: Hurt)
    requires IsDecay(p.decay) && HurtsInPart(p.pain) && IsHurt(h)
    ensures PainIsUnclamped(p, h)
  {
    hide Approach, WorstPain, FromSoreness, RecoveryFactor, IsDecay, Dulled;
    WorstPainIsAFraction(p, h.expressed, h.injuries, h.site);
    DulledIsAFraction(WorstPain(p, FromSoreness(p.pain, h.expressed), h.injuries, h.site), h.analgesia);
    RecoveryIsAFactor(p, p.pain.responseTau, h.dt);
    ApproachStaysBetween(h.current, TargetOf(p, h), RecoveryFactor(p, p.pain.responseTau, h.dt));
  }

  lemma DulledIsAFraction(pain: real, analgesia: real)
    requires Fraction(pain) && Fraction(analgesia)
    ensures Fraction(Dulled(pain, analgesia))
  {
    PartOf(pain, 1.0 - analgesia);
  }

  /** Full soreness, or else a fresh lesion that hurts as much as it can. */
  function Overdone(p: Tuning): Hurt {
    if !Fraction(p.pain.fromSoreness) then Hurt(0.0, 1.0, [], Legs, 0.0, 1.0)
    else Hurt(0.0, 0.0, [Injury("", 1.0, 0.0, 0.0, 1.0)], p.lesions.siteOf(""), 0.0, 1.0)
  }

  lemma OverdoneIsClamped(p: Tuning)
    requires !HurtsInPart(p.pain)
    ensures IsHurt(Overdone(p)) && !PainIsUnclamped(p, Overdone(p))
  {
    hide PainAt, Approach, RecoveryFactor;
    var h := Overdone(p);
    if Fraction(p.pain.fromSoreness) {
      var i := h.injuries[0];
      assert h.injuries[..0] == [];
      assert LesionPain(p.pain, i) == p.pain.fromInjury;
      assert WorstPain(p, 0.0, [], h.site) == 0.0;
      assert FromSoreness(p.pain, 0.0) == 0.0;
      assert WorstPain(p, 0.0, h.injuries, h.site) == p.pain.fromInjury;
    }
  }

  /** The overall intensity is the worst of the four regions. */
  lemma OverallIsTheWorst(p: Tuning, pain: Pain, soreness: Soreness, injuries: seq<Injury>, dt: real)
    ensures var r := NewPain(p, pain, soreness, injuries, dt);
            && (forall site: Site :: site in r.regions && Fraction(r.regions[site]) && r.regions[site] <= r.overall)
            && exists site: Site :: r.regions[site] == r.overall
    ensures ValidPain(NewPain(p, pain, soreness, injuries, dt))
  {
    hide PainTarget, Fading, Approach;
    var r := NewPain(p, pain, soreness, injuries, dt);
    WorstOfFour(r.regions);
  }

  lemma WorstOfFour(m: map<Site, real>)
    requires forall site: Site :: site in m
    ensures forall site: Site :: m[site] <= Worst(m, SITES)
    ensures exists site: Site :: m[site] == Worst(m, SITES)
  {
    assert SITES[..3][..2] == [Legs, Arms] && SITES[..3][..2][..1] == [Legs];
    var three := Max(Max(m[Legs], m[Arms]), m[Grip]);
    assert Worst(m, [Legs]) == m[Legs];
    assert [Legs, Arms][..1] == [Legs] && Worst(m, [Legs, Arms]) == Max(m[Legs], m[Arms]);
    assert SITES[..3] == [Legs, Arms, Grip] && [Legs, Arms, Grip][..2] == [Legs, Arms];
    assert Worst(m, SITES[..3]) == three;
    assert Worst(m, SITES) == Max(three, m[Core]);
    forall site: Site ensures m[site] <= Worst(m, SITES) {
      assert site == Legs || site == Arms || site == Grip || site == Core;
    }
  }

  // ----- soreness -----

  lemma IntervalIsPlausible(p: Tuning, x: Exposure, dt: real)
    requires Reasonable(p) && IsExposure(x) && dt >= 0.0
    ensures Plausible(IntervalOf(p, x, dt))
  {
    forall site: Site ensures Regional(x, site) >= 0.0 {
      assert Fraction(x.load.share(site));
      ProductIsNonNegative(x.load.intensity, x.load.share(site));
    }
  }

  lemma SorenessStaysSound(p: Tuning, x: Exposure, t: real, s: Soreness, dt: real)
    requires Reasonable(p) && IsExposure(x) && dt >= 0.0 && t >= 0.0 && SoundSoreness(s)
    ensures SoundSoreness(Advanced(p.soreness, t, IntervalOf(p, x, dt), s))
  {
    hide IntervalOf, Advanced, SoundSoreness, IsExposure, IsDecay;
    IntervalIsPlausible(p, x, dt);
    LengthOf(p, x, dt);
    ChannelStaysSound(p.soreness, t, IntervalOf(p, x, dt), s);
  }

  lemma LengthOf(p: Tuning, x: Exposure, dt: real)
    ensures IntervalOf(p, x, dt).dt == dt
  {
  }

  // ----- the whole body -----

  /** A valid body that has not slept past now. */
  ghost predicate Lived(b: Body) {
    Valid(b) && (b.sleep.last.Some? ==> b.sleep.last.value.end <= b.t)
  }

  /** The channels without a proof obligation of their own: their clamps and types see to it. */
  lemma ClampedChannels(p: Tuning, x: Exposure, b: Body, dt: real)
    requires Reasonable(p) && IsExposure(x)
    ensures Loaded(p, b.acute, p.acuteTau, LoadDose(x, dt), dt) >= 0.0 && Loaded(p, b.chronic, p.chronicTau, LoadDose(x, dt), dt) >= 0.0
    ensures Fraction(NewEnergy(p, x, b.t, b.energy, b.deficit, dt).substrate)
    ensures NewDeficit(p, x, b.deficit, dt) >= 0.0
    ensures forall deficit :: ValidThermal(NewThermal(p, x, b.thermal, deficit, dt))
  {
    hide Burn, SweatRate, HeatLoad, Approach, RecoveryFactor;
  }

  /** A step keeps every declared domain of the body, unless it oversleeps. */
  lemma StepIsValidExactly(p: Tuning, x: Exposure, b: Body, dt: real)
    requires Reasonable(p) && IsExposure(x) && dt > 0.0 && Valid(b)
    ensures Valid(Step(p, x, b, dt)) <==> !Oversleeps(x, b, dt)
  {
    hide NewReserve, Peripherals, Central, NewPain, Loaded, LoadDose, NewSleep, NewEnergy, NewDeficit, NewThermal, SoundSoreness, Advanced,
         IntervalOf, Reasonable, Fractions, IsExposure, Lesions, SleepPressure, ValidReserve, ValidSleep, ValidThermal, ValidPain,
         ValidInjury, Oversleeps;
    SorenessIsSensible(p);
    DrainIsBounded(p, b.reserve, Intensity(x), dt);
    PeripheralsAreFractions(p, x, b.peripheral, dt);
    CentralClampIsIdle(p, x, b.central, SleepPressure(p.sleep, b.sleep), dt);
    SleepIsValidExactly(p, x, b, dt);
    ClampedChannels(p, x, b, dt);
    SorenessStaysSound(p, x, b.t, b.soreness, dt);
    LesionsStayValid(p, x, b.injuries, dt);
    var r := Step(p, x, b, dt);
    OverallIsTheWorst(p, b.pain, r.soreness, r.injuries, dt);
  }

  /** A body that has not slept past now stays so, and valid. */
  lemma StepStaysLived(p: Tuning, x: Exposure, b: Body, dt: real)
    requires Reasonable(p) && IsExposure(x) && dt >= 0.0 && Lived(b)
    ensures Lived(Step(p, x, b, dt))
  {
    hide Valid, Step, Reasonable, IsExposure;
    SorenessIsSensible(p);
    if dt == 0.0 {
      NoTime(p, x, b);
    } else {
      StepIsValidExactly(p, x, b, dt);
      StepParts(p, x, b, dt);
      SleepsUntilNow(p, x, b, dt);
    }
  }

  lemma NoTime(p: Tuning, x: Exposure, b: Body)
    requires Sensible(p.soreness)
    ensures Step(p, x, b, 0.0) == b
  {
  }

  lemma SleepsUntilNow(p: Tuning, x: Exposure, b: Body, dt: real)
    requires dt > 0.0 && Lived(b)
    ensures !Oversleeps(x, b, dt)
    ensures var last := NewSleep(p.sleep, b.t, b.sleep, x.environment, dt).last; last.Some? ==> last.value.end <= b.t + dt
  {
  }

  lemma {:induction false} IterateStaysLived(p: Tuning, x: Exposure, b: Body, dt: real, n: nat)
    requires Reasonable(p) && IsExposure(x) && dt >= 0.0 && Lived(b)
    ensures Lived(Iterate(p, x, b, dt, n))
  {
    hide Step, Lived, Reasonable, IsExposure;
    SorenessIsSensible(p);
    if n > 0 {
      IterateStaysLived(p, x, b, dt, n - 1);
      StepStaysLived(p, x, Iterate(p, x, b, dt, n - 1), dt);
    }
  }

  /** Whatever interval is accepted, the body it gives is valid; an interval of zero gives the
      body itself. */
  lemma AdvanceStaysLived(p: Tuning, x: Exposure, b: Body, dt: real)
    requires Reasonable(p) && IsExposure(x) && Lived(b)
    ensures AdvanceBody(p, x, b, dt).Ok? ==> Lived(AdvanceBody(p, x, b, dt).value)
    ensures AdvanceBody(p, x, b, dt) != Err(SleepEndsBeforeItStarts)
    ensures AdvanceBody(p, x, b, 0.0) == Ok(b)
  {
    hide Iterate, Lived, IsExposure, ClaimsBoth, Oversleeps, IsDecay;
    if dt > 0.0 {
      LengthIsPositive(p, dt);
      IterateStaysLived(p, x, b, StepLength(p, dt), StepCount(p, dt));
      SleepsUntilNow(p, x, b, StepLength(p, dt));
    }
  }

  lemma LengthIsPositive(p: Tuning, dt: real)
    requires p.stepHours > 0.0 && dt > 0.0
    ensures StepLength(p, dt) > 0.0
  {
  }

  /** Every body on the way is valid. */
  ghost predicate PassesValidBodies(p: Tuning, x: Exposure, b: Body, dt: real, n: nat)
    requires Sensible(p.soreness)
  {
    forall k :: 0 <= k <= n ==> Valid(Iterate(p, x, b, dt, k))
  }

  /** From any valid body an interval passes valid bodies only exactly when its first step does not
      oversleep; and exactly then `advance` takes the interval, if nothing else speaks against it. */
  lemma AdvanceIsValidExactly(p: Tuning, x: Exposure, b: Body, dt: real)
    requires Reasonable(p) && IsExposure(x) && Valid(b) && 0.0 < dt <= p.maxIntervalHours && !ClaimsBoth(x)
    ensures PassesValidBodies(p, x, b, StepLength(p, dt), StepCount(p, dt)) <==> !Oversleeps(x, b, StepLength(p, dt))
    ensures AdvanceBody(p, x, b, dt).Ok? <==> PassesValidBodies(p, x, b, StepLength(p, dt), StepCount(p, dt))
    ensures AdvanceBody(p, x, b, dt).Ok? ==> Valid(AdvanceBody(p, x, b, dt).value)
  {
    hide Iterate, Valid, IsExposure, ClaimsBoth, Oversleeps, IsDecay, StepLength;
    LengthIsPositive(p, dt);
    var h, n := StepLength(p, dt), StepCount(p, dt);
    if Oversleeps(x, b, h) {
      FirstStep(p, x, b, h);
      StepIsValidExactly(p, x, b, h);
      assert !Valid(Iterate(p, x, b, h, 1));
    } else {
      forall k | 0 <= k <= n ensures Valid(Iterate(p, x, b, h, k)) {
        IterateStaysValid(p, x, b, h, k);
      }
      assert Valid(Iterate(p, x, b, h, n));
    }
  }

  lemma FirstStep(p: Tuning, x: Exposure, b: Body, dt: real)
    requires Sensible(p.soreness)
    ensures Iterate(p, x, b, dt, 1) == Step(p, x, b, dt)
  {
    assert Iterate(p, x, b, dt, 0) == b;
  }

  lemma {:induction false} IterateStaysValid(p: Tuning, x: Exposure, b: Body, dt: real, n: nat)
    requires Reasonable(p) && IsExposure(x) && dt > 0.0 && Valid(b) && !Oversleeps(x, b, dt)
    ensures Valid(Iterate(p, x, b, dt, n))
  {
    hide Step, Valid, Reasonable, IsExposure, Oversleeps;
    SorenessIsSensible(p);
    if n > 0 {
      IterateStaysValid(p, x, b, dt, n - 1);
      IterateIsRested(p, x, b, dt, n - 1);
      StepIsValidExactly(p, x, Iterate(p, x, b, dt, n - 1), dt);
    }
  }

  // ----- reachable bodies -----

  lemma NoneIsAFraction()
    ensures Fractions(NONE)
  {
    forall site: Site ensures site in NONE && Fraction(NONE[site]) {
      assert site == Legs || site == Arms || site == Grip || site == Core;
    }
  }

  /** A rested body is valid at any hour from zero on, whatever hour of the day is named. */
  lemma InitialBodyIsLived(p: Tuning, traits: Traits, t: real, e: Environment, phase: real)
    requires Reasonable(p) && IsEnvironment(e) && t >= 0.0
    ensures Lived(InitialBody(p, traits, t, e, phase))
  {
    hide ReconstitutionTau, IsDecay, TimeOfDay;
    TauIsPositive(p, 0.0);
    assert traits.mass / p.mass > 0.0;
    ProductIsNonNegative(p.reserve.reference, traits.mass / p.mass);
    Scale(0.0, p.reserve.reference, traits.mass / p.mass);
    NoneIsAFraction();
  }

  /** A call of `advance`, with the tuning it was given. */
  datatype Call = Call(p: Tuning, x: Exposure, dt: real)

  ghost predicate AreCalls(calls: seq<Call>) {
    forall k :: 0 <= k < |calls| ==> Reasonable(calls[k].p) && IsExposure(calls[k].x)
  }

  /** A life: every call that is accepted moves the body, every other leaves it. */
  ghost function Life(b: Body, calls: seq<Call>): Body
    requires AreCalls(calls)
  {
    if calls == [] then b
    else
      var prior, c := Life(b, calls[..|calls| - 1]), calls[|calls| - 1];
      var r := AdvanceBody(c.p, c.x, prior, c.dt);
      if r.Ok? then r.value else prior
  }

  /** Every body that can be reached from a rested one is valid. */
  lemma {:induction false} ReachableBodiesAreValid(p: Tuning, traits: Traits, t: real, e: Environment, phase: real, calls: seq<Call>)
    requires Reasonable(p) && IsEnvironment(e) && t >= 0.0 && AreCalls(calls)
    ensures Valid(Life(InitialBody(p, traits, t, e, phase), calls))
    ensures Lived(Life(InitialBody(p, traits, t, e, phase), calls))
  {
    hide AdvanceBody, InitialBody, Valid, Reasonable, IsExposure, IsEnvironment;
    if calls == [] {
      InitialBodyIsLived(p, traits, t, e, phase);
    } else {
      var init, c := calls[..|calls| - 1], calls[|calls| - 1];
      ReachableBodiesAreValid(p, traits, t, e, phase, init);
      AdvanceStaysLived(c.p, c.x, Life(InitialBody(p, traits, t, e, phase), init), c.dt);
    }
  }

  /** A body outside that reach, valid all the same, that a step cannot move: it has slept for no
      time at half a nanohour from now. */
  lemma OversleepingIsPossible(p: Tuning, x: Exposure, b: Body)
    requires Reasonable(p) && IsExposure(x) && Valid(b) && x.environment.asleep
    ensures var ahead := LastSleep(b.t + NANO / 2.0, b.t + NANO / 2.0, x.environment.quality);
            var b' := b.(sleep := b.sleep.(last := Some(ahead)));
            Valid(b') && !Valid(Step(p, x, b', NANO / 4.0))
  {
    hide SoundSoreness, Reasonable, IsExposure, Step, Fractions, ValidReserve, ValidThermal, ValidPain, ValidInjury;
    SorenessIsSensible(p);
    var ahead := LastSleep(b.t + NANO / 2.0, b.t + NANO / 2.0, x.environment.quality);
    var b' := b.(sleep := b.sleep.(last := Some(ahead)));
    assert Valid(b') && Oversleeps(x, b', NANO / 4.0);
    StepIsValidExactly(p, x, b', NANO / 4.0);
  }

  // ----- the clock and the local day -----

  lemma DaysAdd(x: real, dt: real)
    ensures TimeOfDay(TimeOfDay(x) + dt) == TimeOfDay(x + dt)
    ensures 0.0 <= x < 24.0 ==> TimeOfDay(x) == x
  {
    var days := (x / 24.0).Floor;
    assert (TimeOfDay(x) + dt) / 24.0 == (x + dt) / 24.0 - days as real;
    FloorShifts((x + dt) / 24.0, days);
  }

  lemma FloorShifts(x: real, k: int)
    ensures (x - k as real).Floor == x.Floor - k
  {
  }

  lemma PhaseMoves(p: SleepTuning, t: real, s: Sleep, e: Environment, dt: real)
    ensures NewSleep(p, t, s, e, dt).phase == TimeOfDay(s.phase + dt)
  {
  }

  /** The length of a number of equal steps. */
  function Total(n: nat, dt: real): real {
    n as real * dt
  }

  lemma TotalGrows(n: nat, dt: real)
    requires n > 0
    ensures Total(n, dt) == Total(n - 1, dt) + dt
    ensures Total(n, dt / n as real) == dt
  {
    OneMoreGain(0.0, dt, n);
  }

  lemma {:induction false} IteratePhase(p: Tuning, x: Exposure, b: Body, dt: real, n: nat)
    requires Sensible(p.soreness) && dt > 0.0 && 0.0 <= b.sleep.phase < 24.0
    ensures Iterate(p, x, b, dt, n).t == b.t + Total(n, dt)
    ensures Iterate(p, x, b, dt, n).sleep.phase == TimeOfDay(b.sleep.phase + Total(n, dt))
  {
    hide Step, TimeOfDay, Sensible, NewSleep;
    if n == 0 {
      DaysAdd(b.sleep.phase, 0.0);
    } else {
      hide Total;
      var prior := Iterate(p, x, b, dt, n - 1);
      IteratePhase(p, x, b, dt, n - 1);
      StepParts(p, x, prior, dt);
      PhaseMoves(p.sleep, prior.t, prior.sleep, x.environment, dt);
      TotalGrows(n, dt);
      DaysAdd(b.sleep.phase + Total(n - 1, dt), dt);
    }
  }

  /** The hour of the day moves with the clock, whatever the body does and however long it does it. */
  lemma PhaseFollowsTheClock(p: Tuning, x: Exposure, b: Body, dt: real)
    requires Reasonable(p) && 0.0 <= b.sleep.phase < 24.0 && AdvanceBody(p, x, b, dt).Ok?
    ensures var r := AdvanceBody(p, x, b, dt).value;
            r.t == b.t + dt && r.sleep.phase == TimeOfDay(b.sleep.phase + dt)
  {
    hide Iterate, TimeOfDay, ClaimsBoth, IsDecay, Total;
    if dt == 0.0 {
      DaysAdd(b.sleep.phase, 0.0);
    } else {
      var n := StepCount(p, dt);
      assert dt / n as real > 0.0;
      TotalGrows(n, dt);
      IteratePhase(p, x, b, dt / n as real, n);
    }
  }
}

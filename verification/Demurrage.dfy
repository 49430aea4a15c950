/** Demurrage accounting (`demurrage.py` over `law.py`): heat that cools, value that is realised, and
    the law that nothing is conjured. Floats are reals; `exp` is any function with its laws. */
module Demurrage {
  import opened Outcomes

  type Exp = real -> real

  /** What is used of the exponential. */
  ghost predicate ExpLaws(exp: Exp) {
    && exp(0.0) == 1.0
    && (forall x :: exp(x) > 0.0)
    && (forall x, y :: x < y ==> exp(x) < exp(y))
    && forall x, y :: exp(x + y) == exp(x) * exp(y)
  }

  function Floor(x: real): (y: real)
    ensures y >= 0.0 && y >= x && (y == 0.0 || y == x)
  {
    if x > 0.0 then x else 0.0
  }

  function Unit(x: real): (y: real)
    ensures 0.0 <= y <= 1.0
  {
    Floor(if x < 1.0 then x else 1.0)
  }

  function Part(x: real, fraction: real): real {
    x * fraction
  }

  // ---- the law ----

  /** `_survive`: the fraction left after x at a scale, whose limit at zero is exact. */
  function Survive(exp: Exp, x: real, scale: real): real {
    var d := Floor(x);
    if scale <= 0.0 then (if d > 0.0 then 0.0 else 1.0) else exp(-d / scale)
  }

  lemma ExpSum(exp: Exp, x: real, y: real)
    requires ExpLaws(exp)
    ensures exp(x + y) == exp(x) * exp(y)
  {}

  lemma ExpLess(exp: Exp, x: real, y: real)
    requires ExpLaws(exp) && x < y
    ensures exp(x) < exp(y)
  {}

  lemma ExpBasics(exp: Exp, x: real)
    requires ExpLaws(exp)
    ensures exp(0.0) == 1.0 && exp(x) > 0.0
  {}

  lemma SurviveInUnit(exp: Exp, x: real, scale: real)
    requires ExpLaws(exp)
    ensures 0.0 <= Survive(exp, x, scale) <= 1.0
    ensures x <= 0.0 ==> Survive(exp, x, scale) == 1.0
    ensures x > 0.0 ==> Survive(exp, x, scale) < 1.0
  {
    hide ExpLaws;
    if scale > 0.0 {
      ExpBasics(exp, -Floor(x) / scale);
      if x > 0.0 {
        NegativeQuotient(x, scale);
        ExpLess(exp, -x / scale, 0.0);
      } else {
        assert -Floor(x) / scale == 0.0;
      }
    }
  }

  lemma NegativeQuotient(x: real, s: real)
    requires x > 0.0 && s > 0.0
    ensures -x / s < 0.0
  {}

  /** Two stretches survived in turn are one stretch survived. */
  lemma SurviveTwice(exp: Exp, x: real, y: real, scale: real)
    requires ExpLaws(exp) && x >= 0.0 && y >= 0.0
    ensures Survive(exp, x, scale) * Survive(exp, y, scale) == Survive(exp, x + y, scale)
  {
    hide ExpLaws;
    if scale > 0.0 {
      SumOverScale(x, y, scale);
      ExpSum(exp, -x / scale, -y / scale);
    }
  }

  lemma SumOverScale(x: real, y: real, s: real)
    requires s > 0.0
    ensures -(x + y) / s == -x / s + -y / s
  {}

  /** Less time leaves strictly more. */
  lemma SurviveLess(exp: Exp, x: real, y: real, scale: real)
    requires ExpLaws(exp) && 0.0 <= x < y && scale > 0.0
    ensures Survive(exp, y, scale) < Survive(exp, x, scale)
  {
    hide ExpLaws;
    QuotientOrder(x, y, scale);
    ExpLess(exp, -y / scale, -x / scale);
  }

  lemma QuotientOrder(x: real, y: real, s: real)
    requires x < y && s > 0.0
    ensures -y / s < -x / s
  {
    var p, q := -x / s, -y / s;
    assert p * s == -x && q * s == -y;
    if p <= q { LessTimes(p, q, s); }
  }

  lemma LessTimes(p: real, q: real, s: real)
    requires p <= q && s > 0.0
    ensures p * s <= q * s
  {}

  /** `cooled_integral`: the area under one decay segment. */
  function CooledIntegral(exp: Exp, stock: real, dt: real, tau: real): real {
    if tau <= 0.0 then 0.0 else Floor(stock) * tau * (1.0 - exp(-Floor(dt) / tau))
  }

  /** Area and survivor of one segment add up to the stock. */
  lemma SegmentBalances(exp: Exp, stock: real, dt: real, tau: real)
    requires tau > 0.0
    ensures CooledIntegral(exp, stock, dt, tau) + tau * Part(Floor(stock), Survive(exp, dt, tau)) == tau * Floor(stock)
  {
    SegmentTerms(Floor(stock), tau, exp(-Floor(dt) / tau));
  }

  lemma SegmentTerms(s: real, t: real, e: real)
    ensures s * t * (1.0 - e) + t * (s * e) == t * s
  {
    assert s * t * (1.0 - e) == s * t - s * t * e;
    assert s * t * e == t * (s * e);
  }

  // ---- the meter ----

  /** The accumulator that rides on an artifact; a field that holds no number is missing. */
  datatype Meter = Meter(heat: Option<real>, frame: Option<int>, earned: Option<real>)

  /** `_tau`: an explicit clock wins, otherwise the measured one; only a positive one counts. */
  function Clock(tau: Option<real>, measured: Option<real>): (t: Option<real>)
    ensures t.Some? ==> t.value > 0.0
  {
    var chosen := if tau.Some? then tau else measured;
    if chosen.Some? && chosen.value > 0.0 then chosen else None
  }

  /** A clock after `_tau`: a positive rate, or none measured. */
  type Tau = t: Option<real> | t.Some? ==> t.value > 0.0 witness None

  function Cool(exp: Exp, heat: real, last: int, now: int, tau: Tau): real {
    match tau
    case None => Floor(heat)
    case Some(t) => Part(Floor(heat), Survive(exp, (now - last) as real, t))
  }

  function Accrue(exp: Exp, heat: real, last: int, now: int, earned: real, tau: Tau): real {
    match tau
    case None => Floor(earned)
    case Some(t) => Floor(earned) + CooledIntegral(exp, heat, (now - last) as real, t)
  }

  /** What one consumption event adds. */
  function Work(restMass: real, work: real): (w: real)
    ensures w >= 0.0
  {
    Product(Floor(restMass), Unit(work))
  }

  function Product(x: real, y: real): (z: real)
    requires x >= 0.0 && y >= 0.0
    ensures z >= 0.0 && (y == 0.0 ==> z == 0.0)
  {
    x * y
  }

  function Deposit(exp: Exp, heat: real, last: int, now: int, restMass: real, work: real, tau: Tau): (real, int) {
    (Cool(exp, heat, last, now, tau) + Work(restMass, work), now)
  }

  function Heat(m: Meter): real {
    if m.heat.Some? then m.heat.value else 0.0
  }

  function Booked(m: Meter): real {
    if m.earned.Some? then m.earned.value else 0.0
  }

  function Frame(m: Meter, now: int): int {
    if m.frame.Some? then m.frame.value else now
  }

  /** `energy`, before rounding. */
  function Energy(exp: Exp, m: Meter, now: int, tau: Tau): real {
    if m.heat.None? || m.frame.None? then 0.0 else Cool(exp, m.heat.value, m.frame.value, now, tau)
  }

  /** `earned`, before rounding. */
  function Earned(exp: Exp, m: Meter, now: int, tau: Tau): real {
    if m.heat.None? || m.frame.None? then Booked(m)
    else Accrue(exp, m.heat.value, m.frame.value, now, Booked(m), tau)
  }

  /** The meter after `witness`. */
  function Witnessed(exp: Exp, m: Meter, now: int, restMass: real, work: real, tau: Tau): Meter {
    var last := Frame(m, now);
    var (heat, frame) := Deposit(exp, Heat(m), last, now, Floor(restMass), work, tau);
    Meter(Some(heat), Some(frame), Some(Accrue(exp, Heat(m), last, now, Booked(m), tau)))
  }

  method Witness(exp: Exp, m: Meter, now: int, restMass: real, work: real, tau: Option<real>, measured: Option<real>)
    returns (out: Meter)
    ensures out == Witnessed(exp, m, now, restMass, work, Clock(tau, measured))
  {
    var clock := Clock(tau, measured);
    var rm := Floor(restMass);
    out := m;
    var h0 := Heat(out);
    var f0 := Frame(out, now);
    var e0 := Booked(out);
    var earnedNow := Accrue(exp, h0, f0, now, e0, clock);
    var (newHeat, newFrame) := Deposit(exp, h0, f0, now, rm, work, clock);
    out := out.(heat := Some(newHeat));
    out := out.(frame := Some(newFrame));
    out := out.(earned := Some(earnedNow));
  }

  /** The clock that is cooled by: an explicit one is never replaced by the measured one, and neither counts
      unless it is positive. */
  lemma ExplicitClockWins(t: real, measured: Option<real>)
    ensures Clock(Some(t), measured) == if t > 0.0 then Some(t) else None
    ensures Clock(None, Some(t)) == if t > 0.0 then Some(t) else None
    ensures Clock(None, None) == None
  {}

  /** What a meter shows dt frames after its own, by a positive clock t: its heat times exp(-dt/t), and what
      is booked plus the area under that curve. A frame in the past shows the meter as it is. */
  lemma ReadingsAre(exp: Exp, m: Meter, now: int, t: real)
    requires ExpLaws(exp) && t > 0.0 && m.heat.Some? && m.frame.Some? && m.heat.value >= 0.0 && Booked(m) >= 0.0
    ensures var dt := if now > m.frame.value then (now - m.frame.value) as real else 0.0;
            && Energy(exp, m, now, Some(t)) == m.heat.value * exp(-dt / t)
            && Earned(exp, m, now, Some(t)) == Booked(m) + m.heat.value * t * (1.0 - exp(-dt / t))
  {
    hide ExpLaws, Survive, CooledIntegral, Floor, Part;
    var x := (now - m.frame.value) as real;
    var dt := if now > m.frame.value then x else 0.0;
    FloorIs(x, dt);
    FloorKeeps(m.heat.value);
    FloorKeeps(Booked(m));
    SurviveIs(exp, m.heat.value, x, dt, t);
  }

  lemma FloorIs(x: real, y: real)
    requires y == if x > 0.0 then x else 0.0
    ensures Floor(x) == y
  {}

  lemma FloorKeeps(x: real)
    requires x >= 0.0
    ensures Floor(x) == x
  {}

  lemma SurviveIs(exp: Exp, heat: real, x: real, dt: real, t: real)
    requires t > 0.0 && Floor(x) == dt && Floor(heat) == heat
    ensures Part(heat, Survive(exp, x, t)) == heat * exp(-dt / t)
    ensures CooledIntegral(exp, heat, x, t) == heat * t * (1.0 - exp(-dt / t))
  {
    hide Floor;
  }

  // ---- conservation ----

  /** What is realised plus what the standing heat can still realise. */
  function Balance(m: Meter, t: real): real {
    Floor(Booked(m)) + t * Floor(Heat(m))
  }

  lemma CoolNonNegative(exp: Exp, heat: real, last: int, now: int, tau: Tau)
    requires ExpLaws(exp)
    ensures 0.0 <= Cool(exp, heat, last, now, tau) <= Floor(heat)
  {
    hide ExpLaws, Survive, Part;
    if tau.Some? {
      SurviveInUnit(exp, (now - last) as real, tau.value);
      FractionOf(Floor(heat), Survive(exp, (now - last) as real, tau.value));
    }
  }

  lemma FractionOf(x: real, f: real)
    requires x >= 0.0 && 0.0 <= f <= 1.0
    ensures 0.0 <= Part(x, f) <= x
  {}

  /** An accrual never lowers what is booked. */
  lemma AccrueGrows(exp: Exp, heat: real, last: int, now: int, earned: real, tau: Tau)
    requires ExpLaws(exp)
    ensures Accrue(exp, heat, last, now, earned, tau) >= Floor(earned)
  {
    hide ExpLaws, Survive, Part;
    if tau.Some? {
      var t := tau.value;
      SurviveInUnit(exp, (now - last) as real, t);
      FractionOf(Floor(heat), Survive(exp, (now - last) as real, t));
      SegmentBalances(exp, heat, (now - last) as real, t);
      hide CooledIntegral;
      ScaledOrder(t, Part(Floor(heat), Survive(exp, (now - last) as real, t)), Floor(heat));
    }
  }

  /** A longer stretch leaves no more. */
  lemma SurviveFalls(exp: Exp, x: real, y: real, scale: real)
    requires ExpLaws(exp) && x <= y && scale > 0.0
    ensures Survive(exp, y, scale) <= Survive(exp, x, scale)
  {
    hide ExpLaws, Survive;
    SurviveInUnit(exp, x, scale);
    SurviveInUnit(exp, y, scale);
    if 0.0 <= x < y { SurviveLess(exp, x, y, scale); }
  }

  lemma PartOrder(x: real, f: real, g: real)
    requires x >= 0.0 && f <= g
    ensures Part(x, f) <= Part(x, g)
  {}

  lemma AccrueForward(exp: Exp, heat: real, last: int, now: int, now': int, earned: real, tau: Tau)
    requires ExpLaws(exp) && now <= now'
    ensures Accrue(exp, heat, last, now, earned, tau) <= Accrue(exp, heat, last, now', earned, tau)
  {
    hide ExpLaws, Survive, Part;
    if tau.Some? {
      var t := tau.value;
      var x, y := (now - last) as real, (now' - last) as real;
      SurviveFalls(exp, x, y, t);
      SegmentBalances(exp, heat, x, t);
      SegmentBalances(exp, heat, y, t);
      hide CooledIntegral;
      PartOrder(Floor(heat), Survive(exp, y, t), Survive(exp, x, t));
      ScaledOrder(t, Part(Floor(heat), Survive(exp, y, t)), Part(Floor(heat), Survive(exp, x, t)));
    }
  }

  /** A later reading shows no less earned. */
  lemma EarnedForward(exp: Exp, m: Meter, now: int, now': int, tau: Tau)
    requires ExpLaws(exp) && now <= now'
    ensures Earned(exp, m, now, tau) <= Earned(exp, m, now', tau)
  {
    hide ExpLaws, Accrue;
    if m.heat.Some? && m.frame.Some? {
      AccrueForward(exp, m.heat.value, m.frame.value, now, now', Booked(m), tau);
    }
  }

  /** A witness takes back nothing that a reading not after it showed, whatever is read later. */
  lemma WitnessKeepsEarned(exp: Exp, m: Meter, now: int, e: Event, now': int, tau: Tau)
    requires ExpLaws(exp) && now <= e.now
    ensures Earned(exp, m, now, tau) <= Earned(exp, Witnessed(exp, m, e.now, e.restMass, e.work, tau), now', tau)
  {
    hide ExpLaws, Accrue, Deposit;
    var m' := Witnessed(exp, m, e.now, e.restMass, e.work, tau);
    AccrueGrows(exp, Heat(m), Frame(m, e.now), e.now, Booked(m), tau);
    AccrueGrows(exp, m'.heat.value, m'.frame.value, now', Booked(m'), tau);
    if m.heat.Some? && m.frame.Some? { EarnedForward(exp, m, now, e.now, tau); }
  }

  /** What is earned stays earned: a reading is never undercut by a later one, through any run whose first
      event, or the later reading when there is none, does not come before it. */
  lemma {:induction false} EarnedStays(exp: Exp, m: Meter, events: seq<Event>, now: int, now': int, tau: Tau)
    requires ExpLaws(exp) && now <= if events == [] then now' else events[0].now
    ensures Earned(exp, m, now, tau) <= Earned(exp, After(exp, m, events, tau), now', tau)
  {
    hide ExpLaws, Earned, Witnessed;
    if events == [] {
      EarnedForward(exp, m, now, now', tau);
    } else {
      var init, e := events[..|events| - 1], events[|events| - 1];
      EarnedStays(exp, m, init, now, e.now, tau);
      WitnessKeepsEarned(exp, After(exp, m, init, tau), e.now, e, now', tau);
    }
  }

  lemma ScaledOrder(t: real, x: real, y: real)
    requires t > 0.0 && x <= y
    ensures t * x <= t * y
  {}

  lemma Distribute(t: real, x: real, y: real)
    ensures t * (x + y) == t * x + t * y
  {}

  /** Each consumption event adds exactly tau times its deposit to the balance, whatever the clock does. */
  lemma WitnessBalances(exp: Exp, m: Meter, now: int, restMass: real, work: real, t: real)
    requires ExpLaws(exp) && t > 0.0
    ensures Balance(Witnessed(exp, m, now, restMass, work, Some(t)), t) == Balance(m, t) + t * Work(Floor(restMass), work)
  {
    hide ExpLaws, Work;
    var last := Frame(m, now);
    CoolNonNegative(exp, Heat(m), last, now, Some(t));
    AccrueGrows(exp, Heat(m), last, now, Booked(m), Some(t));
    SpanBalances(exp, Heat(m), last, now, Booked(m), t);
    hide Cool, Accrue;
    Distribute(t, Cool(exp, Heat(m), last, now, Some(t)), Work(Floor(restMass), work));
  }

  /** Over any span, what is realised and what is left of the stock balance. */
  lemma SpanBalances(exp: Exp, heat: real, last: int, now: int, earned: real, t: real)
    requires t > 0.0
    ensures Accrue(exp, heat, last, now, earned, Some(t)) + t * Cool(exp, heat, last, now, Some(t))
         == Floor(earned) + t * Floor(heat)
  {
    SegmentBalances(exp, heat, (now - last) as real, t);
    hide CooledIntegral, Survive;
  }

  /** A reading only moves value from the stock to what is realised. */
  lemma ReadingBalances(exp: Exp, m: Meter, now: int, t: real)
    requires t > 0.0 && m.frame.Some? && m.heat.Some?
    ensures Earned(exp, m, now, Some(t)) + t * Energy(exp, m, now, Some(t)) == Balance(m, t)
  {
    hide Cool, Accrue;
    SpanBalances(exp, m.heat.value, m.frame.value, now, Booked(m), t);
  }

  datatype Event = Event(now: int, restMass: real, work: real)

  function After(exp: Exp, m: Meter, events: seq<Event>, tau: Tau): Meter {
    if events == [] then m
    else
      var e := events[|events| - 1];
      Witnessed(exp, After(exp, m, events[..|events| - 1], tau), e.now, e.restMass, e.work, tau)
  }

  /** The deposits of a run. */
  function Deposits(events: seq<Event>): (d: real)
    ensures d >= 0.0
  {
    if events == [] then 0.0
    else Deposits(events[..|events| - 1]) + Work(Floor(events[|events| - 1].restMass), events[|events| - 1].work)
  }

  /** Over any run under any clock: realised value plus tau times the standing heat is tau times the
      deposits, on top of what the meter started with. */
  lemma {:induction false} Conservation(exp: Exp, m: Meter, events: seq<Event>, t: real)
    requires ExpLaws(exp) && t > 0.0
    ensures Balance(After(exp, m, events, Some(t)), t) == Balance(m, t) + t * Deposits(events)
  {
    hide ExpLaws, Balance, Work, Witnessed;
    if events == [] {
      TimesZero(t);
    } else {
      var init, e := events[..|events| - 1], events[|events| - 1];
      Conservation(exp, m, init, t);
      WitnessBalances(exp, After(exp, m, init, Some(t)), e.now, e.restMass, e.work, t);
      Distribute(t, Deposits(init), Work(Floor(e.restMass), e.work));
    }
  }

  lemma TimesZero(t: real)
    ensures t * 0.0 == 0.0
  {}

  const FRESH := Meter(None, None, None)

  lemma ReadingBounds(exp: Exp, m: Meter, now: int, t: real)
    requires ExpLaws(exp) && t > 0.0 && m.frame.Some? && m.heat.Some?
    ensures Energy(exp, m, now, Some(t)) >= 0.0 && Earned(exp, m, now, Some(t)) >= 0.0
  {
    hide ExpLaws;
    CoolNonNegative(exp, m.heat.value, m.frame.value, now, Some(t));
    AccrueGrows(exp, m.heat.value, m.frame.value, now, Booked(m), Some(t));
    hide Cool, Accrue;
  }

  lemma UntouchedReads(exp: Exp, now: int, tau: Tau)
    ensures Energy(exp, FRESH, now, tau) == 0.0 && Earned(exp, FRESH, now, tau) == 0.0
  {}

  lemma FreshBalance(t: real)
    ensures Balance(FRESH, t) == 0.0
  {}

  /** From an untouched artifact, at any reading frame: earned + tau * energy = tau * deposits, so the
      payout never exceeds tau times the deposits. */
  lemma LifetimePayout(exp: Exp, events: seq<Event>, now: int, t: real)
    requires ExpLaws(exp) && t > 0.0
    ensures var m := After(exp, FRESH, events, Some(t));
            && Earned(exp, m, now, Some(t)) + t * Energy(exp, m, now, Some(t)) == t * Deposits(events)
            && 0.0 <= Earned(exp, m, now, Some(t)) <= t * Deposits(events)
  {
    hide ExpLaws, Deposits, Balance, Energy, Earned;
    var m := After(exp, FRESH, events, Some(t));
    Conservation(exp, FRESH, events, t);
    FreshBalance(t);
    TimesZero(t);
    if events == [] {
      NoDeposits();
      UntouchedReads(exp, now, Some(t));
    } else {
      AfterReads(exp, events, t);
      hide After;
      ReadingBalances(exp, m, now, t);
      ReadingBounds(exp, m, now, t);
      ScaledOrder(t, 0.0, Energy(exp, m, now, Some(t)));
    }
  }

  lemma NoDeposits()
    ensures Deposits([]) == 0.0
  {}

  lemma AfterReads(exp: Exp, events: seq<Event>, t: real)
    requires t > 0.0 && events != []
    ensures var m := After(exp, FRESH, events, Some(t)); m.heat.Some? && m.frame.Some?
  {}

  // ---- consumption without work ----

  /** A witness of no work only moves the frame and cools the stock to it. */
  lemma NoWorkStock(exp: Exp, m: Meter, at: int, restMass: real, t: real)
    requires ExpLaws(exp) && t > 0.0 && m.heat.Some? && m.frame.Some?
    ensures var m' := Witnessed(exp, m, at, restMass, 0.0, Some(t));
            && m'.frame == Some(at) && m'.heat.Some?
            && Floor(m'.heat.value) == Part(Floor(m.heat.value), Survive(exp, (at - m.frame.value) as real, t))
  {
    hide ExpLaws, Survive, Accrue, Part;
    CoolNonNegative(exp, m.heat.value, m.frame.value, at, Some(t));
  }

  lemma CooledTwice(exp: Exp, m: Meter, at: int, restMass: real, now: int, t: real)
    requires ExpLaws(exp) && t > 0.0 && m.heat.Some? && m.frame.Some? && m.frame.value <= at <= now
    ensures Energy(exp, Witnessed(exp, m, at, restMass, 0.0, Some(t)), now, Some(t)) == Energy(exp, m, now, Some(t))
  {
    hide ExpLaws, Survive, Witnessed, Floor, Part;
    var h := Floor(m.heat.value);
    var x, y := (at - m.frame.value) as real, (now - at) as real;
    NoWorkStock(exp, m, at, restMass, t);
    SurviveTwice(exp, x, y, t);
    assert (now - m.frame.value) as real == x + y;
    Regroup(h, Survive(exp, x, t), Survive(exp, y, t), Survive(exp, x + y, t));
  }

  lemma Regroup(h: real, x: real, y: real, z: real)
    requires x * y == z
    ensures Part(Part(h, x), y) == Part(h, z)
  {
    assert h * x * y == h * (x * y);
  }

  /** Under a forward clock a witness of no work changes no later reading. */
  lemma ZeroWorkInvisible(exp: Exp, m: Meter, at: int, restMass: real, now: int, t: real)
    requires ExpLaws(exp) && t > 0.0 && m.heat.Some? && m.frame.Some? && m.frame.value <= at <= now
    ensures var m' := Witnessed(exp, m, at, restMass, 0.0, Some(t));
            && Energy(exp, m', now, Some(t)) == Energy(exp, m, now, Some(t))
            && Earned(exp, m', now, Some(t)) == Earned(exp, m, now, Some(t))
  {
    hide ExpLaws, Energy, Earned, Balance, Survive, Floor;
    var m' := Witnessed(exp, m, at, restMass, 0.0, Some(t));
    CooledTwice(exp, m, at, restMass, now, t);
    NoWorkStock(exp, m, at, restMass, t);
    NoWork(restMass);
    TimesZero(t);
    WitnessBalances(exp, m, at, restMass, 0.0, t);
    hide Witnessed;
    ReadingBalances(exp, m, now, t);
    ReadingBalances(exp, m', now, t);
  }

  lemma NoWork(restMass: real)
    ensures Work(Floor(restMass), 0.0) == 0.0
  {}

  /** A standing stock's later reading is unchanged by a witness of no work exactly when the witness
      falls between the last frame and the reading. */
  lemma ZeroWorkInvisibleIff(exp: Exp, m: Meter, at: int, restMass: real, now: int, t: real)
    requires ExpLaws(exp) && t > 0.0 && m.heat.Some? && m.heat.value > 0.0 && m.frame.Some? && m.frame.value <= now
    ensures Energy(exp, Witnessed(exp, m, at, restMass, 0.0, Some(t)), now, Some(t)) == Energy(exp, m, now, Some(t))
            <==> m.frame.value <= at <= now
  {
    hide ExpLaws, Survive, Witnessed;
    var h, f := m.heat.value, m.frame.value;
    NoWorkStock(exp, m, at, restMass, t);
    SurviveInUnit(exp, (at - f) as real, t);
    SurviveInUnit(exp, (now - at) as real, t);
    if f <= at <= now {
      CooledTwice(exp, m, at, restMass, now, t);
    } else if at < f {
      SurviveLess(exp, (now - f) as real, (now - at) as real, t);
      TimesLess(h, Survive(exp, (now - at) as real, t), Survive(exp, (now - f) as real, t));
    } else {
      SurviveLess(exp, (now - f) as real, (at - f) as real, t);
      TimesLess(h, Survive(exp, (at - f) as real, t), Survive(exp, (now - f) as real, t));
    }
  }

  lemma TimesLess(h: real, x: real, y: real)
    requires h > 0.0 && x < y
    ensures Part(h, x) < Part(h, y)
  {}

  // ---- runs with and without their idle events ----

  /** The events of a run that deposit anything. */
  function Working(events: seq<Event>): seq<Event> {
    if events == [] then []
    else
      var init, e := events[..|events| - 1], events[|events| - 1];
      if Work(Floor(e.restMass), e.work) == 0.0 then Working(init) else Working(init) + [e]
  }

  /** The clock runs forward from the meter through the run to the reading. */
  predicate Forward(m: Meter, events: seq<Event>, now: int) {
    && (forall i :: 0 <= i < |events| ==> events[i].now <= now)
    && (forall i, j :: 0 <= i < j < |events| ==> events[i].now <= events[j].now)
    && (m.frame.Some? ==> m.frame.value <= now && forall i :: 0 <= i < |events| ==> m.frame.value <= events[i].now)
  }

  /** A meter that holds heat and frame, or has no heat and owes nothing. */
  predicate Readable(m: Meter) {
    (m.heat.Some? && m.frame.Some?) || (Heat(m) <= 0.0 && Booked(m) >= 0.0)
  }

  predicate SameReadings(exp: Exp, a: Meter, b: Meter, now: int, tau: Tau) {
    Energy(exp, a, now, tau) == Energy(exp, b, now, tau) && Earned(exp, a, now, tau) == Earned(exp, b, now, tau)
  }

  lemma {:induction false} WorkingDeposits(events: seq<Event>)
    ensures Deposits(Working(events)) == Deposits(events)
  {
    hide Work;
    if events != [] {
      var init, e := events[..|events| - 1], events[|events| - 1];
      WorkingDeposits(init);
      assert (Working(init) + [e])[..|Working(init)|] == Working(init);
    }
  }

  /** The frame a run leaves is its last event's. */
  lemma AfterFrame(exp: Exp, m: Meter, events: seq<Event>, tau: Tau)
    requires Readable(m)
    ensures var m' := After(exp, m, events, tau);
            && Readable(m')
            && (events != [] ==> m'.heat.Some? && m'.frame == Some(events[|events| - 1].now))
  {
    hide Cool, Accrue, Work;
  }

  lemma PartOfNothing(f: real)
    ensures Part(0.0, f) == 0.0
  {}

  /** What a readable meter's heat cools to is its energy. */
  lemma CoolIsEnergy(exp: Exp, m: Meter, now: int, tau: Tau)
    requires Readable(m)
    ensures Cool(exp, Heat(m), Frame(m, now), now, tau) == Energy(exp, m, now, tau)
  {
    hide Survive, Part;
    if tau.Some? { PartOfNothing(Survive(exp, (now - Frame(m, now)) as real, tau.value)); }
  }

  lemma IdleEnergy(exp: Exp, m: Meter, e: Event, now: int, tau: Tau)
    requires ExpLaws(exp) && Readable(m) && Work(Floor(e.restMass), e.work) == 0.0
    requires e.now <= now && (m.frame.Some? ==> m.frame.value <= e.now)
    ensures Energy(exp, Witnessed(exp, m, e.now, e.restMass, e.work, tau), now, tau) == Energy(exp, m, now, tau)
  {
    hide ExpLaws, Survive, Part, Work, Accrue;
    CoolIsEnergy(exp, m, e.now, tau);
    if tau.Some? {
      var t := tau.value;
      if m.heat.Some? && m.frame.Some? {
        CoolNonNegative(exp, m.heat.value, m.frame.value, e.now, tau);
        var h := Floor(m.heat.value);
        var x, y := (e.now - m.frame.value) as real, (now - e.now) as real;
        SurviveTwice(exp, x, y, t);
        assert (now - m.frame.value) as real == x + y;
        Regroup(h, Survive(exp, x, t), Survive(exp, y, t), Survive(exp, x + y, t));
      } else {
        PartOfNothing(Survive(exp, (now - e.now) as real, t));
      }
    }
  }

  /** The energy after a run is that after its working events. */
  lemma {:induction false} IdleEventsKeepEnergy(exp: Exp, m: Meter, events: seq<Event>, now: int, tau: Tau)
    requires ExpLaws(exp) && Readable(m) && Forward(m, events, now)
    ensures Energy(exp, After(exp, m, events, tau), now, tau) == Energy(exp, After(exp, m, Working(events), tau), now, tau)
    decreases |events|
  {
    hide ExpLaws, Energy, Readable, Work, Witnessed;
    if events != [] {
      var init, e := events[..|events| - 1], events[|events| - 1];
      var some := Working(init);
      assert (some + [e])[..|some|] == some;
      var before, only := After(exp, m, init, tau), After(exp, m, some, tau);
      AfterFrame(exp, m, init, tau);
      AfterFrame(exp, m, some, tau);
      if Work(Floor(e.restMass), e.work) == 0.0 {
        IdleEventsKeepEnergy(exp, m, init, now, tau);
        IdleEnergy(exp, before, e, now, tau);
      } else {
        IdleEventsKeepEnergy(exp, m, init, e.now, tau);
        WitnessOfEnergy(exp, before, only, e, now, tau);
      }
    }
  }

  /** A witness adds to the energy at its frame, so its later readings depend on that alone. */
  lemma WitnessOfEnergy(exp: Exp, a: Meter, b: Meter, e: Event, now: int, tau: Tau)
    requires Readable(a) && Readable(b) && Energy(exp, a, e.now, tau) == Energy(exp, b, e.now, tau)
    ensures Energy(exp, Witnessed(exp, a, e.now, e.restMass, e.work, tau), now, tau) ==
            Energy(exp, Witnessed(exp, b, e.now, e.restMass, e.work, tau), now, tau)
  {
    CoolIsEnergy(exp, a, e.now, tau);
    CoolIsEnergy(exp, b, e.now, tau);
    hide Cool, Accrue, Work, Readable;
  }

  /** A witness adds to the energy shown at its frame the rest mass times the work, each counted from zero,
      and the work up to one. */
  lemma WitnessAdds(exp: Exp, m: Meter, e: Event, tau: Tau)
    requires ExpLaws(exp) && Readable(m)
    ensures Energy(exp, Witnessed(exp, m, e.now, e.restMass, e.work, tau), e.now, tau) ==
            Energy(exp, m, e.now, tau)
            + (if e.restMass > 0.0 then e.restMass else 0.0) * (if e.work > 1.0 then 1.0 else if e.work > 0.0 then e.work else 0.0)
  {
    hide ExpLaws, Readable, Energy, Witnessed, Work, Floor;
    WitnessAddsWork(exp, m, e, tau);
    WorkIs(e.restMass, e.work);
  }

  lemma WitnessAddsWork(exp: Exp, m: Meter, e: Event, tau: Tau)
    requires ExpLaws(exp) && Readable(m)
    ensures Energy(exp, Witnessed(exp, m, e.now, e.restMass, e.work, tau), e.now, tau) ==
            Energy(exp, m, e.now, tau) + Work(Floor(e.restMass), e.work)
  {
    hide ExpLaws, Readable, Survive, Accrue, Cool, Floor, Work, Energy, Witnessed;
    CoolIsEnergy(exp, m, e.now, tau);
    EnergyNonNegative(exp, m, e.now, tau);
    NoTime(exp, tau);
    WitnessedHeat(exp, m, e, tau);
    EnergyAtFrame(exp, Witnessed(exp, m, e.now, e.restMass, e.work, tau),
                  Energy(exp, m, e.now, tau) + Work(Floor(e.restMass), e.work), e.now, tau);
  }

  lemma NoTime(exp: Exp, tau: Tau)
    requires ExpLaws(exp)
    ensures tau.Some? ==> Survive(exp, 0.0, tau.value) == 1.0
  {
    hide ExpLaws, Survive;
    if tau.Some? { SurviveInUnit(exp, 0.0, tau.value); }
  }

  lemma EnergyAtFrame(exp: Exp, m: Meter, heat: real, now: int, tau: Tau)
    requires m.heat == Some(heat) && m.frame == Some(now) && heat >= 0.0
    requires tau.Some? ==> Survive(exp, 0.0, tau.value) == 1.0
    ensures Energy(exp, m, now, tau) == heat
  {
    hide Cool;
    CoolAtFrame(exp, heat, now, tau);
  }

  lemma WitnessedHeat(exp: Exp, m: Meter, e: Event, tau: Tau)
    requires Cool(exp, Heat(m), Frame(m, e.now), e.now, tau) == Energy(exp, m, e.now, tau)
    ensures var m' := Witnessed(exp, m, e.now, e.restMass, e.work, tau);
            m'.heat == Some(Energy(exp, m, e.now, tau) + Work(Floor(e.restMass), e.work)) && m'.frame == Some(e.now)
  {
    hide Cool, Accrue, Work, Energy;
    FloorTwice(e.restMass);
  }

  lemma FloorTwice(x: real)
    ensures Floor(Floor(x)) == Floor(x)
  {}

  lemma WorkIs(restMass: real, work: real)
    ensures Work(Floor(restMass), work) ==
            (if restMass > 0.0 then restMass else 0.0) * (if work > 1.0 then 1.0 else if work > 0.0 then work else 0.0)
  {}

  lemma EnergyNonNegative(exp: Exp, m: Meter, now: int, tau: Tau)
    requires ExpLaws(exp)
    ensures Energy(exp, m, now, tau) >= 0.0
  {
    if m.heat.Some? && m.frame.Some? { CoolNonNegative(exp, m.heat.value, m.frame.value, now, tau); }
  }

  lemma CoolAtFrame(exp: Exp, heat: real, now: int, tau: Tau)
    requires tau.Some? ==> Survive(exp, 0.0, tau.value) == 1.0
    ensures Cool(exp, heat, now, now, tau) == Floor(heat)
  {
    hide Survive;
  }

  /** What a readable meter has earned is what its balance does not hold as energy. */
  lemma EarnedIs(exp: Exp, m: Meter, now: int, t: real)
    requires t > 0.0 && Readable(m)
    ensures Earned(exp, m, now, Some(t)) == Balance(m, t) - t * Energy(exp, m, now, Some(t))
  {
    hide Cool, Accrue;
    if m.heat.Some? && m.frame.Some? {
      ReadingBalances(exp, m, now, t);
    } else {
      TimesZero(t);
    }
  }

  lemma SameEnergySameEarned(exp: Exp, a: Meter, b: Meter, now: int, t: real)
    requires t > 0.0 && Readable(a) && Readable(b) && Balance(a, t) == Balance(b, t)
    requires Energy(exp, a, now, Some(t)) == Energy(exp, b, now, Some(t))
    ensures Earned(exp, a, now, Some(t)) == Earned(exp, b, now, Some(t))
  {
    hide Energy, Earned, Readable, Balance;
    EarnedIs(exp, a, now, t);
    EarnedIs(exp, b, now, t);
  }

  lemma UnmeasuredEarned(exp: Exp, m: Meter, now: int)
    requires Readable(m)
    ensures Earned(exp, m, now, None) == Floor(Booked(m))
  {}

  /** With a forward clock, the events that deposit nothing can be left out of any run: no reading after
      it tells the difference. */
  lemma IdleEventsInvisible(exp: Exp, m: Meter, events: seq<Event>, now: int, tau: Tau)
    requires ExpLaws(exp) && Readable(m) && Forward(m, events, now)
    ensures SameReadings(exp, After(exp, m, events, tau), After(exp, m, Working(events), tau), now, tau)
  {
    hide ExpLaws, Energy, Earned, Readable, Forward, After, Deposits, Working, Balance, Booked;
    var a, b := After(exp, m, events, tau), After(exp, m, Working(events), tau);
    IdleEventsKeepEnergy(exp, m, events, now, tau);
    AfterFrame(exp, m, events, tau);
    AfterFrame(exp, m, Working(events), tau);
    WorkingDeposits(events);
    if tau.Some? {
      Conservation(exp, m, events, tau.value);
      Conservation(exp, m, Working(events), tau.value);
      SameEnergySameEarned(exp, a, b, now, tau.value);
    } else {
      UnmeasuredCarries(exp, m, events);
      UnmeasuredCarries(exp, m, Working(events));
      UnmeasuredEarned(exp, a, now);
      UnmeasuredEarned(exp, b, now);
    }
  }

  /** From an untouched artifact too. */
  lemma IdleEventsInvisibleFromFresh(exp: Exp, events: seq<Event>, now: int, tau: Tau)
    requires ExpLaws(exp) && Forward(FRESH, events, now)
    ensures SameReadings(exp, After(exp, FRESH, events, tau), After(exp, FRESH, Working(events), tau), now, tau)
  {
    IdleEventsInvisible(exp, FRESH, events, now, tau);
  }

  /** One idle event tells a meter that is not readable from itself. */
  lemma UnreadableShows(exp: Exp, m: Meter, at: int, tau: Tau)
    requires ExpLaws(exp) && !Readable(m) && (m.frame.Some? ==> m.frame.value <= at)
    ensures var e := Event(at, 0.0, 0.0);
            && Forward(m, [e], at)
            && !SameReadings(exp, After(exp, m, [e], tau), After(exp, m, Working([e]), tau), at, tau)
  {
    var e := Event(at, 0.0, 0.0);
    assert [e][..0] == [];
    NoWork(0.0);
    var m' := Witnessed(exp, m, at, 0.0, 0.0, tau);
    SurviveInUnit(exp, 0.0, if tau.Some? then tau.value else 1.0);
    AccrueGrows(exp, m'.heat.value, at, at, Booked(m'), tau);
    AccrueGrows(exp, Heat(m), Frame(m, at), at, Booked(m), tau);
    hide ExpLaws, Survive, Accrue;
  }

  /** Under a forward clock idle events are invisible in every run exactly when the meter is readable. */
  lemma IdleEventsInvisibleIff(exp: Exp, m: Meter, tau: Tau)
    requires ExpLaws(exp)
    ensures Readable(m) <==>
            forall events, now :: Forward(m, events, now) ==>
              SameReadings(exp, After(exp, m, events, tau), After(exp, m, Working(events), tau), now, tau)
  {
    hide ExpLaws, Readable, Forward, SameReadings, After, Working;
    if Readable(m) {
      forall events, now | Forward(m, events, now)
        ensures SameReadings(exp, After(exp, m, events, tau), After(exp, m, Working(events), tau), now, tau)
      {
        IdleEventsInvisible(exp, m, events, now, tau);
      }
    } else {
      UnreadableShows(exp, m, Frame(m, 0), tau);
    }
  }

  // ---- with no measured clock ----

  /** With no measured rate nothing cools and nothing is realised: a run only adds its deposits. */
  lemma {:induction false} UnmeasuredCarries(exp: Exp, m: Meter, events: seq<Event>)
    ensures var m' := After(exp, m, events, None);
            Floor(Heat(m')) == Floor(Heat(m)) + Deposits(events) && Floor(Booked(m')) == Floor(Booked(m))
  {
    if events != [] {
      UnmeasuredCarries(exp, m, events[..|events| - 1]);
    }
  }

  /** Heat never exceeds what was deposited. */
  lemma {:induction false} HeatBounded(exp: Exp, m: Meter, events: seq<Event>, tau: Tau)
    requires ExpLaws(exp)
    ensures Floor(Heat(After(exp, m, events, tau))) <= Floor(Heat(m)) + Deposits(events)
  {
    if events != [] {
      var init, e := events[..|events| - 1], events[|events| - 1];
      HeatBounded(exp, m, init, tau);
      var before := After(exp, m, init, tau);
      CoolNonNegative(exp, Heat(before), Frame(before, e.now), e.now, tau);
      hide ExpLaws, Cool, Accrue, Work;
    }
  }
}

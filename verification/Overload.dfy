/** The overload back-off of MotorDriver.cpp: when a track that drew too much current is tried again. */
module Overload {
  import opened Bytes

  const POWER_SAMPLE_OVERLOAD_WAIT: nat := 40000
  const POWER_SAMPLE_ALL_GOOD: nat := 5000000
  const POWER_SAMPLE_ALERT_GOOD: nat := 20000
  const POWER_SAMPLE_IGNORE_FAULT_LOW: nat := 100000
  const POWER_SAMPLE_IGNORE_FAULT_HIGH: nat := 5000
  const POWER_SAMPLE_IGNORE_CURRENT: nat := 100000
  const POWER_SAMPLE_RETRY_MAX: nat := 10000000
  const CLOCK: nat := 0x1_0000_0000

  datatype Mode = OFF | ON | OVERLOAD | ALERT

  /** powerMode, lastPowerMode, lastPowerChange, lastBadSample and power_sample_overload_wait. */
  datatype Driver = Driver(mode: Mode, lastMode: Mode, changed: map<Mode, nat>, badSample: nat, wait: nat)

  predicate Typed(d: Driver) {
    forall m: Mode :: m in d.changed
  }

  /** What a check sees: the time, the fault pin, and whether the current is above the trip value. */
  datatype Sample = Sample(now: nat, fault: bool, high: bool)

  /** micros() at a time on a clock that does not wrap. */
  function Micros(t: int): nat {
    t % CLOCK
  }

  /** The difference of two readings of the 32-bit clock. */
  function Diff(now: nat, stamp: nat): nat {
    (Micros(now) - stamp) % CLOCK
  }

  /** The side effect of microsSinceLastPowerChange: a very old change is moved to 30 seconds ago. */
  function Touched(d: Driver, m: Mode, now: nat): (u: Driver)
    requires Typed(d)
    ensures Typed(u)
  {
    if Diff(now, d.changed[m]) > 0x1000_0000 then
      d.(changed := d.changed[m := (Micros(now) - 30000000) % CLOCK])
    else d
  }

  /** setPower, apart from the pins. */
  function SetPower(d: Driver, m: Mode, now: nat): (u: Driver)
    requires Typed(d)
    ensures Typed(u)
  {
    if d.mode == m then d else d.(mode := m, changed := d.changed[m := Micros(now)])
  }

  function Doubled(wait: nat): nat {
    if 2 * wait > POWER_SAMPLE_RETRY_MAX then POWER_SAMPLE_RETRY_MAX else 2 * wait
  }

  /** The ALERT case of checkPowerOverload. */
  function CheckAlert(d0: Driver, s: Sample): (u: Driver)
    requires Typed(d0)
    ensures Typed(u)
  {
    var d := d0.(lastMode := ALERT, badSample := if d0.lastMode != ALERT then Micros(s.now) else d0.badSample);
    var since := Diff(s.now, d.changed[ALERT]);
    var e := Touched(d, ALERT, s.now);
    if s.fault then
      var f := e.(badSample := Micros(s.now));
      if since < (if s.high then POWER_SAMPLE_IGNORE_FAULT_HIGH else POWER_SAMPLE_IGNORE_FAULT_LOW) then f
      else SetPower(f, OVERLOAD, s.now)
    else if s.high then
      var f := e.(badSample := Micros(s.now));
      if since < POWER_SAMPLE_IGNORE_CURRENT then f else SetPower(f, OVERLOAD, s.now)
    else if Diff(s.now, e.badSample) > POWER_SAMPLE_ALERT_GOOD then SetPower(e, ON, s.now)
    else e
  }

  /** checkPowerOverload for a track without a common fault pin. */
  function Check(d: Driver, s: Sample): (u: Driver)
    requires Typed(d)
    ensures Typed(u)
  {
    match d.mode
    case OFF => d.(lastMode := OFF, wait := POWER_SAMPLE_OVERLOAD_WAIT)
    case ON =>
      var e := d.(lastMode := ON);
      if s.fault || s.high then SetPower(e, ALERT, s.now)
      else
        var f := Touched(e, ON, s.now);
        if Diff(s.now, e.changed[ON]) > POWER_SAMPLE_ALL_GOOD then f.(wait := POWER_SAMPLE_OVERLOAD_WAIT) else f
    case ALERT => CheckAlert(d, s)
    case OVERLOAD =>
      var e := Touched(d.(lastMode := OVERLOAD), OVERLOAD, s.now);
      if Diff(s.now, d.changed[OVERLOAD]) > d.wait then SetPower(e.(wait := Doubled(d.wait)), ALERT, s.now) else e
  }

  /** The fields of MotorDriver, updated in place. */
  class MotorDriver {
    var powerMode: Mode
    var lastPowerMode: Mode
    var lastPowerChange: map<Mode, nat>
    var lastBadSample: nat
    var overloadWait: nat
    var powerPin: bool

    /** The track has power in the modes ON and ALERT only. */
    predicate Wired()
      reads this
    {
      powerPin == (powerMode == ON || powerMode == ALERT)
    }

    ghost function Abs(): Driver
      reads this
    {
      Driver(powerMode, lastPowerMode, lastPowerChange, lastBadSample, overloadWait)
    }

    method ChangePower(mode: Mode, now: nat)
      requires Typed(Abs()) && Wired()
      modifies this`powerMode, this`lastPowerChange, this`powerPin
      ensures Typed(Abs()) && Wired() && Abs() == SetPower(old(Abs()), mode, now)
    {
      if powerMode == mode { return; }
      lastPowerChange := lastPowerChange[mode := Micros(now)];
      powerPin := mode == ON || mode == ALERT;
      powerMode := mode;
    }

    method MicrosSinceLastPowerChange(mode: Mode, now: nat) returns (diff: nat)
      requires Typed(Abs())
      modifies this`lastPowerChange
      ensures Typed(Abs()) && Abs() == Touched(old(Abs()), mode, now)
      ensures mode in old(lastPowerChange) && diff == Diff(now, old(lastPowerChange)[mode])
    {
      diff := Diff(now, lastPowerChange[mode]);
      if diff > 0x1000_0000 {
        lastPowerChange := lastPowerChange[mode := (Micros(now) - 30000000) % CLOCK];
      }
    }

    /** The ALERT case of checkPowerOverload. */
    method Alerted(s: Sample)
      requires Typed(Abs()) && Wired() && powerMode == ALERT
      modifies this
      ensures Typed(Abs()) && Wired() && Abs() == CheckAlert(old(Abs()), s)
    {
      hide Diff, Micros;
      if powerMode != lastPowerMode {
        lastBadSample := Micros(s.now);
      }
      lastPowerMode := ALERT;
      var mslpc := MicrosSinceLastPowerChange(ALERT, s.now);
      if s.fault {
        lastBadSample := Micros(s.now);
        var timeout := if s.high then POWER_SAMPLE_IGNORE_FAULT_HIGH else POWER_SAMPLE_IGNORE_FAULT_LOW;
        if mslpc < timeout { return; }
        ChangePower(OVERLOAD, s.now);
        return;
      }
      if s.high {
        lastBadSample := Micros(s.now);
        if mslpc < POWER_SAMPLE_IGNORE_CURRENT { return; }
        ChangePower(OVERLOAD, s.now);
        return;
      }
      var goodtime := Diff(s.now, lastBadSample);
      if goodtime > POWER_SAMPLE_ALERT_GOOD {
        ChangePower(ON, s.now);
      }
    }

    /** checkPowerOverload */
    method CheckPowerOverload(s: Sample)
      requires Typed(Abs()) && Wired()
      modifies this
      ensures Typed(Abs()) && Wired() && Abs() == Check(old(Abs()), s)
    {
      hide Diff, Micros, CheckAlert;
      match powerMode
      case OFF =>
        lastPowerMode := OFF;
        overloadWait := POWER_SAMPLE_OVERLOAD_WAIT;
      case ON =>
        lastPowerMode := ON;
        if s.fault || s.high {
          ChangePower(ALERT, s.now);
          return;
        }
        var since := MicrosSinceLastPowerChange(ON, s.now);
        if since > POWER_SAMPLE_ALL_GOOD {
          overloadWait := POWER_SAMPLE_OVERLOAD_WAIT;
        }
      case ALERT => Alerted(s);
      case OVERLOAD =>
        lastPowerMode := OVERLOAD;
        var mslpc := MicrosSinceLastPowerChange(OVERLOAD, s.now);
        if mslpc > overloadWait {
          overloadWait := overloadWait * 2;
          if overloadWait > POWER_SAMPLE_RETRY_MAX {
            overloadWait := POWER_SAMPLE_RETRY_MAX;
          }
          ChangePower(ALERT, s.now);
        }
    }
  }

  // ---------- Runs, with their true times ----------

  /** A restore after an overload with its number since the last reset and how long it waited; a recovery
      from an alert and how long nothing bad had been seen. */
  datatype Event = Restore(count: nat, waited: int) | Recovery(quiet: int)

  /** A driver and what really happened: when it entered its mode and whether it has been checked since, the time of
      its stamp for that mode, when it last saw something bad in an alert, and the restores since the last reset. */
  datatype Track = Track(d: Driver, time: nat, entered: nat, seen: bool, stamp: nat, bad: nat, restores: nat,
                         log: seq<Event>)

  function Min(a: int, b: int): int {
    if a < b then a else b
  }

  /** 40 ms, doubled `n` times, up to 10 s. */
  function Backoff(n: nat): nat {
    if n == 0 then POWER_SAMPLE_OVERLOAD_WAIT else Doubled(Backoff(n - 1))
  }

  predicate Resets(d: Driver, s: Sample)
    requires Typed(d)
  {
    d.mode == OFF || (d.mode == ON && !s.fault && !s.high && Diff(s.now, d.changed[ON]) > POWER_SAMPLE_ALL_GOOD)
  }

  /** Checks, and somebody switching the track on or off in between. */
  datatype Act = Sampled(s: Sample) | Switched(on: bool, now: nat)

  function Time(a: Act): nat {
    if a.Sampled? then a.s.now else a.now
  }

  predicate Ordered(acts: seq<Act>) {
    forall i, j | 0 <= i < j < |acts| :: Time(acts[i]) <= Time(acts[j])
  }

  /** The true time of the stamp of the current mode after a check that stays in it. */
  function Stamp(t: Track, s: Sample): nat
    requires Typed(t.d)
  {
    if Diff(s.now, t.d.changed[t.d.mode]) > 0x1000_0000 && Check(t.d, s).changed != t.d.changed && s.now >= 30000000
    then s.now - 30000000 else t.stamp
  }

  function Next(t: Track, a: Act): (v: Track)
    requires Typed(t.d)
    ensures Typed(v.d)
  {
    match a
    case Switched(on, now) =>
      var u := SetPower(t.d, if on then ON else OFF, now);
      if u.mode == t.d.mode then t.(d := u, time := now)
      else t.(d := u, time := now, entered := now, seen := false, stamp := now)
    case Sampled(s) =>
      var u := Check(t.d, s);
      var moved := u.mode != t.d.mode;
      var bad := if t.d.mode == ALERT && (s.fault || s.high || !t.seen) then s.now else t.bad;
      Track(u, s.now, if moved then s.now else t.entered, !moved, if moved then s.now else Stamp(t, s), bad,
        if Resets(t.d, s) then 0 else if t.d.mode == OVERLOAD && moved then t.restores + 1 else t.restores,
        t.log + if t.d.mode == OVERLOAD && moved then [Restore(t.restores + 1, s.now - t.entered)]
                else if t.d.mode == ALERT && u.mode == ON then [Recovery(s.now - bad)]
                else [])
  }

  function Start(): (t: Track)
    ensures Typed(t.d)
  {
    var never := map[OFF := 0, ON := 0, OVERLOAD := 0, ALERT := 0];
    AllModes(never);
    Track(Driver(OFF, OFF, never, 0, POWER_SAMPLE_OVERLOAD_WAIT), 0, 0, false, 0, 0, 0, [])
  }

  lemma AllModes(c: map<Mode, nat>)
    requires OFF in c && ON in c && OVERLOAD in c && ALERT in c
    ensures forall m: Mode :: m in c
  {
    forall m: Mode
      ensures m in c
    {
      match m
      case OFF =>
      case ON =>
      case OVERLOAD =>
      case ALERT =>
    }
  }

  function Run(acts: seq<Act>): (t: Track)
    ensures Typed(t.d)
  {
    if acts == [] then Start() else Next(Run(acts[..|acts| - 1]), acts[|acts| - 1])
  }

  predicate GoodEvent(e: Event) {
    match e
    case Restore(count, waited) => count >= 1 && waited > Backoff(count - 1)
    case Recovery(quiet) => quiet > POWER_SAMPLE_ALERT_GOOD
  }

  ghost predicate Fits(t: Track) {
    && Typed(t.d)
    && t.d.wait == Backoff(t.restores)
    && (t.d.mode != OFF ==> t.d.changed[t.d.mode] == Micros(t.stamp) && t.entered <= t.stamp <= t.time)
    && t.bad <= t.time
    && (t.d.mode == ALERT ==> (t.d.lastMode == ALERT <==> t.seen))
    && (t.stamp == t.entered || t.time >= t.stamp + 30000000)
    && (t.d.mode == ALERT && t.seen ==> t.d.badSample == Micros(t.bad))
    && forall i | 0 <= i < |t.log| :: GoodEvent(t.log[i])
  }

  /** The 32-bit clock never says that more time has passed than really has. */
  lemma DiffIsReal(now: nat, before: nat)
    requires before <= now
    ensures Diff(now, Micros(before)) <= now - before
  {
  }

  lemma StampFits(t: Track, s: Sample)
    requires Fits(t) && t.time <= s.now && Check(t.d, s).mode == t.d.mode && t.d.mode != OFF
    ensures Check(t.d, s).changed[t.d.mode] == Micros(Stamp(t, s)) && t.entered <= Stamp(t, s) <= s.now
  {
    DiffIsReal(s.now, t.stamp);
    if Stamp(t, s) != t.stamp {
      MovedStamp(s.now);
    }
  }

  lemma MovedStamp(now: nat)
    requires now >= 30000000
    ensures (Micros(now) - 30000000) % CLOCK == Micros(now - 30000000)
  {
    var q, r := now / CLOCK, now % CLOCK;
    if r >= 30000000 {
      ModIs(now - 30000000, CLOCK, q, r - 30000000);
    } else {
      ModIs(now - 30000000, CLOCK, q - 1, r - 30000000 + CLOCK);
    }
  }

  lemma BadFits(t: Track, s: Sample)
    requires Fits(t) && t.time <= s.now && t.d.mode == ALERT
    ensures var v := Next(t, Sampled(s));
      && (v.d.mode == ALERT ==> v.d.badSample == Micros(v.bad)) && t.bad <= v.bad <= s.now
      && (v.d.mode == ON ==> s.now - v.bad > POWER_SAMPLE_ALERT_GOOD)
  {
    hide Micros, Diff;
    var v := Next(t, Sampled(s));
    DiffIsReal(s.now, v.bad);
  }

  /** A restore comes later than the wait after the overload began. */
  lemma RestoreIsLate(t: Track, s: Sample)
    requires Fits(t) && t.time <= s.now && t.d.mode == OVERLOAD && Check(t.d, s).mode != OVERLOAD
    ensures s.now - t.entered > Backoff(t.restores)
  {
    DiffIsReal(s.now, t.stamp);
  }

  lemma CheckFits(t: Track, s: Sample)
    requires Fits(t) && t.time <= s.now
    ensures Fits(Next(t, Sampled(s)))
  {
    hide Backoff;
    var v := Next(t, Sampled(s));
    assert Backoff(0) == POWER_SAMPLE_OVERLOAD_WAIT && Backoff(t.restores + 1) == Doubled(Backoff(t.restores)) by {
      BackoffSteps(t.restores);
    }
    if v.d.mode == t.d.mode && t.d.mode != OFF {
      StampFits(t, s);
    }
    if t.d.mode == ALERT {
      BadFits(t, s);
    } else if t.d.mode == OVERLOAD && v.d.mode != OVERLOAD {
      RestoreIsLate(t, s);
    }
  }

  lemma BackoffSteps(n: nat)
    ensures Backoff(0) == POWER_SAMPLE_OVERLOAD_WAIT && Backoff(n + 1) == Doubled(Backoff(n))
  {
  }

  lemma {:induction false} RunFits(acts: seq<Act>)
    requires Ordered(acts)
    ensures Fits(Run(acts)) && (acts != [] ==> Run(acts).time == Time(acts[|acts| - 1]))
      && (acts == [] ==> Run(acts).time == 0)
    decreases |acts|
  {
    hide Fits;
    if acts == [] {
      StartFits();
    } else {
      var n := |acts| - 1;
      RunFits(acts[..n]);
      StepFits(Run(acts[..n]), acts[n]);
    }
  }

  lemma StartFits()
    ensures Fits(Start())
  {
  }

  lemma StepFits(t: Track, a: Act)
    requires Fits(t) && t.time <= Time(a)
    ensures Fits(Next(t, a)) && Next(t, a).time == Time(a)
  {
    hide Backoff;
    if a.Sampled? {
      CheckFits(t, a.s);
    }
  }

  /** The wait is 40 ms times a power of two, at most 10 s. */
  lemma {:induction false} BackoffIs(n: nat)
    ensures Backoff(n) == Min(40000 * Pow2(n), POWER_SAMPLE_RETRY_MAX)
    decreases n
  {
    if n > 0 {
      BackoffIs(n - 1);
      assert 40000 * Pow2(n) == 2 * (40000 * Pow2(n - 1));
    }
  }

  /** Main result: over any run of checks, and of switching on and off, the wait stays between 40 ms and
      10 s; the j-th restore since a reset comes later than 40 ms times 2^(j-1), or 10 s, after its
      overload began; and an alert ends well only after more than 20 ms without anything bad. */
  lemma BackoffHolds(acts: seq<Act>)
    requires Ordered(acts)
    ensures var t := Run(acts);
      && POWER_SAMPLE_OVERLOAD_WAIT <= t.d.wait <= POWER_SAMPLE_RETRY_MAX
      && t.d.wait == Min(40000 * Pow2(t.restores), POWER_SAMPLE_RETRY_MAX)
      && forall i | 0 <= i < |t.log| ::
           match t.log[i]
           case Restore(j, waited) => j >= 1 && waited > Min(40000 * Pow2(j - 1), POWER_SAMPLE_RETRY_MAX)
           case Recovery(quiet) => quiet > POWER_SAMPLE_ALERT_GOOD
  {
    hide Backoff, Run, Pow2;
    RunFits(acts);
    var t := Run(acts);
    BackoffIs(t.restores);
    forall i | 0 <= i < |t.log|
      ensures GoodEvent(t.log[i])
      ensures t.log[i].Restore? ==> t.log[i].waited > Min(40000 * Pow2(t.log[i].count - 1), POWER_SAMPLE_RETRY_MAX)
    {
      if t.log[i].Restore? {
        BackoffIs(t.log[i].count - 1);
      }
    }
  }

  /** A check never takes a track straight from overload to on. */
  lemma OverloadIsTested(d: Driver, s: Sample)
    requires Typed(d) && d.mode == OVERLOAD
    ensures Check(d, s).mode in {OVERLOAD, ALERT}
    ensures Check(d, s).mode == ALERT <==> Diff(s.now, d.changed[OVERLOAD]) > d.wait
  {
  }

  // ---------- What a check decides ----------

  /** The 32-bit clock tells the time since its last stamp, and in an alert since the last bad sample. */
  predicate InTime(t: Track, s: Sample) {
    s.now < t.stamp + CLOCK && (t.d.mode == ALERT && t.seen ==> s.now < t.bad + CLOCK)
  }

  /** Mode and wait after a check, by the real times since the mode was entered and since something bad was seen. */
  function Verdict(mode: Mode, s: Sample, since: int, seen: bool, quiet: int, wait: nat): (Mode, nat) {
    match mode
    case OFF => (OFF, 40000)
    case ON =>
      if s.fault || s.high then (ALERT, wait) else (ON, if since > 5000000 then 40000 else wait)
    case ALERT =>
      if s.fault && s.high && since >= 5000 then (OVERLOAD, wait)
      else if (s.fault || s.high) && since >= 100000 then (OVERLOAD, wait)
      else if !s.fault && !s.high && seen && quiet > 20000 then (ON, wait)
      else (ALERT, wait)
    case OVERLOAD =>
      if since > wait then (ALERT, Min(2 * wait, 10000000)) else (OVERLOAD, wait)
  }

  lemma DiffIsExact(now: nat, before: nat)
    requires before <= now < before + CLOCK
    ensures Diff(now, Micros(before)) == now - before
  {
  }

  /** Main result: over any run, what a check does is what real time says.  A powered track that sees something
      bad goes into an alert; the alert cuts the power at the first check at which both fault and current are
      there after 5 ms, or one of them after 100 ms, and at no other; it ends well at the first check more than 20
      ms after the last bad one; and power comes back at the first check after the wait. */
  lemma ChecksDecide(acts: seq<Act>, s: Sample)
    requires Ordered(acts) && Run(acts).time <= s.now && InTime(Run(acts), s)
    ensures var t := Run(acts);
      var v := Next(t, Sampled(s));
      (v.d.mode, v.d.wait) == Verdict(t.d.mode, s, s.now - t.entered, t.seen, s.now - t.bad, t.d.wait)
  {
    hide Fits, Verdict, Run;
    RunFits(acts);
    OneCheck(Run(acts), s);
    NextChecks(Run(acts), s);
  }

  lemma NextChecks(t: Track, s: Sample)
    requires Typed(t.d)
    ensures Next(t, Sampled(s)).d == Check(t.d, s)
  {
  }

  lemma OneCheck(t: Track, s: Sample)
    requires Fits(t) && t.time <= s.now && InTime(t, s)
    ensures (Check(t.d, s).mode, Check(t.d, s).wait)
         == Verdict(t.d.mode, s, s.now - t.entered, t.seen, s.now - t.bad, t.d.wait)
  {
    hide Backoff, Micros, Diff;
    WaitIsShort(t.restores);
    if t.d.mode != OFF {
      DiffIsExact(s.now, t.stamp);
    }
    if t.d.mode == ALERT {
      DiffIsExact(s.now, if s.fault || s.high || !t.seen then s.now else t.bad);
    }
  }

  lemma {:induction false} WaitIsShort(n: nat)
    ensures 40000 <= Backoff(n) <= 10000000
    decreases n
  {
    if n > 0 {
      WaitIsShort(n - 1);
    }
  }

  /** A check leaves the stamp of its mode less than five minutes back, so checks up to an hour apart are in time. */
  lemma StampsAreRenewed(t: Track, s: Sample)
    requires Fits(t) && t.time <= s.now && InTime(t, s)
    ensures var v := Next(t, Sampled(s)); v.d.mode in {ALERT, OVERLOAD} ==> s.now <= v.stamp + 0x1000_0000
  {
    hide Backoff, Micros, Diff;
    if t.d.mode != OFF {
      DiffIsExact(s.now, t.stamp);
      if s.now > t.stamp + 0x1000_0000 {
        MovedStamp(s.now);
        DiffIsExact(s.now, s.now - 30000000);
        StampMoves(t, s);
      }
    }
  }

  lemma StampMoves(t: Track, s: Sample)
    requires Typed(t.d) && Diff(s.now, t.d.changed[t.d.mode]) > 0x1000_0000
    ensures t.d.mode in {ALERT, OVERLOAD} && Check(t.d, s).mode == t.d.mode ==>
      Check(t.d, s).changed[t.d.mode] == (Micros(s.now) - 30000000) % CLOCK
  {
    hide Micros, Diff;
  }

  /** Checks one after the other. */
  function After(t: Track, samples: seq<Sample>): Track
    requires Typed(t.d)
    decreases |samples|
  {
    if samples == [] then t else After(Next(t, Sampled(samples[0])), samples[1..])
  }

  predicate AllBad(samples: seq<Sample>) {
    && (forall i | 0 <= i < |samples| :: samples[i].fault || samples[i].high)
    && (forall i, j | 0 <= i < j < |samples| :: samples[i].now <= samples[j].now)
  }

  /** Main result: a short circuit is cut off.  If every check of a powered track sees a fault or too much
      current, the track is without power at the latest at the first check 100 ms after the first of them. */
  lemma ShortIsCut(acts: seq<Act>, samples: seq<Sample>) returns (k: nat)
    requires Ordered(acts) && Run(acts).d.mode == ON && AllBad(samples) && |samples| >= 2
    requires Run(acts).time <= samples[0].now
    requires samples[0].now + 100000 <= samples[|samples| - 1].now < samples[0].now + CLOCK
    ensures 1 < k <= |samples| && After(Run(acts), samples[..k]).d.mode == OVERLOAD
  {
    hide Run;
    RunFits(acts);
    var t, s := Run(acts), samples[0];
    hide Fits;
    StepFits(t, Sampled(s));
    AlertBegins(t, s);
    k := AlertEnds(Next(t, Sampled(s)), samples[1..]);
    assert samples[..k + 1][1..] == samples[1..][..k];
    k := k + 1;
  }

  lemma AlertBegins(t: Track, s: Sample)
    requires Typed(t.d) && t.d.mode == ON && (s.fault || s.high)
    ensures var v := Next(t, Sampled(s)); v.d.mode == ALERT && v.entered == s.now == v.stamp && !v.seen
  {
  }

  lemma {:induction false} AlertEnds(t: Track, samples: seq<Sample>) returns (k: nat)
    requires Fits(t) && t.d.mode == ALERT && AllBad(samples) && samples != [] && t.time <= samples[0].now
    requires t.entered + 100000 <= samples[|samples| - 1].now < t.entered + CLOCK
    requires t.seen ==> t.bad == t.time
    ensures 0 < k <= |samples| && After(t, samples[..k]).d.mode == OVERLOAD
    decreases |samples|
  {
    var s := samples[0];
    InTimeIs(t, s);
    hide Fits;
    OneCheck(t, s);
    StepFits(t, Sampled(s));
    AlertGoesOn(t, s);
    var v := Next(t, Sampled(s));
    if v.d.mode == OVERLOAD {
      k := 1;
      assert After(v, []) == v;
    } else {
      k := AlertEnds(v, samples[1..]);
      assert samples[..k + 1][1..] == samples[1..][..k];
      k := k + 1;
    }
  }

  lemma InTimeIs(t: Track, s: Sample)
    requires Fits(t) && t.d.mode == ALERT && t.time <= s.now < t.entered + CLOCK && (t.seen ==> t.bad == t.time)
    ensures InTime(t, s) && (t.seen ==> t.entered <= t.time)
  {
  }

  lemma AlertGoesOn(t: Track, s: Sample)
    requires Typed(t.d) && t.d.mode == ALERT && (s.fault || s.high)
    ensures var v := Next(t, Sampled(s));
      v.d == Check(t.d, s) && (v.d.mode == ALERT ==> v.entered == t.entered && v.bad == s.now == v.time)
  {
  }
}

/** How reminders bring a loco's speed to its target: getMomentum, normalize, dccalize and the
    ramp in issueReminder of DCC.cpp. */
module Momentum {
  import opened Bytes

  const MOMENTUM_USE_DEFAULT: byte := 255
  const MOMENTUM_FACTOR: nat := 7

  /** A speed byte on one scale: 0 to 127 forwards, -1 to -128 in reverse. */
  function Normalize(speed: byte): (n: int)
    ensures -128 <= n < 128
  {
    if speed >= 128 then speed % 128 else -1 - speed
  }

  function Dccalize(speed: int): byte {
    if speed > 127 then 0xFF
    else if speed < -127 then 0x7F
    else if speed >= 0 then speed + 128
    else -1 - speed
  }

  /** The two scales are the same. */
  lemma ScalesAgree(speed: byte, n: int)
    ensures Dccalize(Normalize(speed)) == speed
    ensures -128 <= n < 128 ==> Normalize(Dccalize(n)) == n
    ensures n > 127 ==> Normalize(Dccalize(n)) == 127
    ensures n < -128 ==> Normalize(Dccalize(n)) == -128
  {
  }

  /** The settings: a loco's own, the station's defaults, and whether acceleration is linear. */
  datatype Settings = Settings(momentumA: byte, momentumD: byte, defaultA: byte, defaultD: byte, linear: bool)

  /** A slot's speedCode and targetSpeed, and its momentum_base on the millisecond clock. */
  datatype Ramp = Ramp(speed: byte, target: byte, base: nat)

  /** DCC::getMomentum */
  function GetMomentum(s: Settings, r: Ramp): (m: nat)
    ensures m < 256
  {
    var target, current := r.target % 128, r.speed % 128;
    if target > current then
      var momentum := if s.momentumA == MOMENTUM_USE_DEFAULT then s.defaultA else s.momentumA;
      if momentum == 0 || s.linear then momentum
      else if momentum - (target - current) / 8 < 0 then 0
      else momentum - (target - current) / 8
    else if s.momentumD == MOMENTUM_USE_DEFAULT then s.defaultD
    else s.momentumD
  }

  /** `int16_t delay=now-slot->getMomentumBase()` on a 32-bit clock. */
  function Delay(r: Ramp, now: nat): (d: int)
    ensures -0x8000 <= d < 0x8000
  {
    ToInt16((now - r.base) % 0x1_0000_0000)
  }

  /** How many notches are due; C++ division rounds towards zero. */
  function Ticks(s: Settings, r: Ramp, now: nat): (t: int) {
    var millisPerNotch := MOMENTUM_FACTOR * GetMomentum(s, r);
    var delay := Delay(r, now);
    if millisPerNotch == 0 then 500
    else if delay >= 0 then delay / millisPerNotch
    else -(-delay / millisPerNotch)
  }

  /** The new speed on the normal scale, in int16_t arithmetic. */
  function Moved(current: int, target: int, ticks: int): int {
    if current < target then
      var up := ToInt16(current + ticks);
      if up > target then target else up
    else
      var down := ToInt16(current - ticks);
      if down < target then target else down
  }

  /** The ramp of one reminder. */
  function Remind(s: Settings, r: Ramp, now: nat): Ramp {
    var ticks := Ticks(s, r, now);
    if r.target == r.speed || ticks <= 0 then r
    else r.(speed := Dccalize(Moved(Normalize(r.speed), Normalize(r.target), ticks)), base := now)
  }

  function Distance(r: Ramp): nat {
    var c, t := Normalize(r.speed), Normalize(r.target);
    if c < t then t - c else c - t
  }

  /** How far a reminder may move the speed: nothing is due while the delay is below a notch, or when
      the int16_t delay has wrapped. */
  lemma WhenDue(s: Settings, r: Ramp, now: nat)
    ensures var m := MOMENTUM_FACTOR * GetMomentum(s, r);
      Ticks(s, r, now) > 0 <==> m == 0 || Delay(r, now) >= m
    ensures Ticks(s, r, now) < 0x8000 - 128
    ensures var e := (now - r.base) % 0x1_0000_0000; Delay(r, now) == e <==> e < 0x8000
  {
    var m := MOMENTUM_FACTOR * GetMomentum(s, r);
    var d := Delay(r, now);
    if m > 0 {
      Quotient(d, m);
      Quotient(-d, m);
    }
  }

  /** An input on which it has wrapped: 30 s after the last change the speed moves, 40 s after it does not. */
  lemma LateReminderIsLost()
    ensures var s, r := Settings(10, 10, 0, 0, true), Ramp(128, 200, 0);
      Remind(s, r, 40000) == r && Remind(s, r, 30000) == Ramp(200, 200, 30000)
  {
    hide GetMomentum, Delay, Normalize, Dccalize, Moved;
    var s, r := Settings(10, 10, 0, 0, true), Ramp(128, 200, 0);
    assert GetMomentum(s, r) == 10 by { SampleMomentum(); }
    SampleDelays();
    assert 25536 / 70 == 364 && 30000 / 70 == 428;
    SampleMove();
  }

  lemma SampleMomentum()
    ensures GetMomentum(Settings(10, 10, 0, 0, true), Ramp(128, 200, 0)) == 10
  {
  }

  lemma SampleDelays()
    ensures Delay(Ramp(128, 200, 0), 40000) == -25536 && Delay(Ramp(128, 200, 0), 30000) == 30000
  {
    hide ToInt16;
    assert 40000 % 0x1_0000_0000 == 40000 && 30000 % 0x1_0000_0000 == 30000;
    FitsInt16(30000);
    WrapsInt16(40000);
  }

  lemma WrapsInt16(v: int)
    requires 0x8000 <= v < 0x1_8000
    ensures ToInt16(v) == v - 0x1_0000
  {
  }

  lemma SampleMove()
    ensures Dccalize(Moved(Normalize(128), Normalize(200), 428)) == 200
  {
  }

  lemma Quotient(d: int, m: int)
    requires d <= 0x8000 && m >= MOMENTUM_FACTOR
    ensures d >= 0 ==> 0 <= d / m <= 0x8000 / 7 && (d / m > 0 <==> d >= m)
  {
    if d >= 0 {
      var q := d / m;
      assert d == m * q + d % m && 0 <= d % m < m;
      if q < 0 {
        Grows(m, -1, q);
      } else if q > 0 {
        Grows(m, q, 1);
        Grows(m - 7, q, 0);
      }
    }
  }

  lemma Grows(m: int, a: int, b: int)
    requires m >= 0 && a >= b
    ensures m * a >= m * b
  {
  }

  /** Which setting counts: by whether the speed is to grow, the loco's own or else the default one; growing speed
      comes faster by one for every eight steps that are missing, unless acceleration is linear. */
  lemma WhichMomentum(s: Settings, r: Ramp)
    ensures var missing := r.target % 128 - r.speed % 128;
      var (own, default) := if missing > 0 then (s.momentumA, s.defaultA) else (s.momentumD, s.defaultD);
      var m := if own == 255 then default else own;
      GetMomentum(s, r) ==
        if missing <= 0 || s.linear then m else if m > missing / 8 then m - missing / 8 else 0
  {
  }

  /** One notch comes due for every 7 ms times that, as far as the delay can tell; without any, all of them at
      once. */
  lemma NotchesDue(s: Settings, r: Ramp, now: nat)
    ensures var m, u := 7 * GetMomentum(s, r), Ticks(s, r, now);
      && (m > 0 && Delay(r, now) >= 0 ==> m * u <= Delay(r, now) < m * (u + 1))
      && (m == 0 ==> Remind(s, r, now).speed == r.target)
  {
    var m := 7 * GetMomentum(s, r);
    if m > 0 && Delay(r, now) >= 0 {
      hide GetMomentum, Delay;
      var d := Delay(r, now);
      assert d == m * (d / m) + d % m;
    } else if m == 0 {
      RemindApproaches(s, r, now);
      SameScale(Remind(s, r, now));
      hide GetMomentum, Remind, Delay;
      assert Distance(r) <= 255 by { hide *; DistanceIsShort(r); }
    }
  }

  lemma DistanceIsShort(r: Ramp)
    ensures Distance(r) <= 255
  {
  }

  // ---------- Every run ----------

  /** One reminder never overflows, never moves the speed away from its target or past it, and moves it
      by the notches due or all the way. */
  lemma RemindApproaches(s: Settings, r: Ramp, now: nat)
    ensures var t, u := Remind(s, r, now), Ticks(s, r, now);
      && t.target == r.target
      && Distance(t) == (if u <= 0 then Distance(r) else if u >= Distance(r) then 0 else Distance(r) - u)
      && (Normalize(r.speed) <= Normalize(r.target) ==> Normalize(r.speed) <= Normalize(t.speed) <= Normalize(r.target))
      && (Normalize(r.speed) >= Normalize(r.target) ==> Normalize(r.speed) >= Normalize(t.speed) >= Normalize(r.target))
  {
    WhenDue(s, r, now);
    hide Ticks;
    var u := Ticks(s, r, now);
    var c, t := Normalize(r.speed), Normalize(r.target);
    ScalesAgree(r.speed, c);
    ScalesAgree(r.target, t);
    if u > 0 {
      FitsInt16(c + u);
      FitsInt16(c - u);
      ScalesAgree(r.speed, Moved(c, t, u));
    }
  }

  /** The reminders of a run, each with the settings and the time it sees. */
  function Reminded(r: Ramp, run: seq<(Settings, nat)>): Ramp {
    if run == [] then r
    else
      var before := Reminded(r, run[..|run| - 1]);
      Remind(run[|run| - 1].0, before, run[|run| - 1].1)
  }

  /** The notches that came due in a run. */
  function Due(r: Ramp, run: seq<(Settings, nat)>): nat {
    if run == [] then 0
    else
      var before := Reminded(r, run[..|run| - 1]);
      var u := Ticks(run[|run| - 1].0, before, run[|run| - 1].1);
      Due(r, run[..|run| - 1]) + if before.speed != before.target && u > 0 then u else 0
  }

  /** Main result: over any run of reminders the speed moves monotonically towards the target, by
      exactly the notches that came due, and stays there once there are enough of them. */
  lemma {:induction false} RampReachesTarget(r: Ramp, run: seq<(Settings, nat)>)
    ensures var t := Reminded(r, run);
      && t.target == r.target
      && Distance(t) == (if Due(r, run) >= Distance(r) then 0 else Distance(r) - Due(r, run))
      && (Normalize(r.speed) <= Normalize(r.target) ==> Normalize(r.speed) <= Normalize(t.speed) <= Normalize(r.target))
      && (Normalize(r.speed) >= Normalize(r.target) ==> Normalize(r.speed) >= Normalize(t.speed) >= Normalize(r.target))
      && (Due(r, run) >= Distance(r) <==> t.speed == r.target)
    decreases |run|
  {
    if run != [] {
      RampReachesTarget(r, run[..|run| - 1]);
      var before := Reminded(r, run[..|run| - 1]);
      RemindApproaches(run[|run| - 1].0, before, run[|run| - 1].1);
    }
    SameScale(Reminded(r, run));
  }

  lemma SameScale(r: Ramp)
    ensures Distance(r) == 0 <==> r.speed == r.target
  {
    ScalesAgree(r.speed, 0);
    ScalesAgree(r.target, 0);
  }

  /** Enough reminders, each at least a notch after the last change, reach the target. */
  lemma {:induction false} EnoughReminders(r: Ramp, run: seq<(Settings, nat)>)
    requires forall k | 0 <= k < |run| :: Ticks(run[k].0, Reminded(r, run[..k]), run[k].1) > 0
    requires |run| >= Distance(r)
    ensures Reminded(r, run).speed == r.target
  {
    DueGrows(r, run);
    RampReachesTarget(r, run);
  }

  lemma {:induction false} DueGrows(r: Ramp, run: seq<(Settings, nat)>)
    requires forall k | 0 <= k < |run| :: Ticks(run[k].0, Reminded(r, run[..k]), run[k].1) > 0
    ensures Due(r, run) >= (if |run| <= Distance(r) then |run| else Distance(r))
    decreases |run|
  {
    hide Ticks, Remind, Normalize, Distance;
    if run != [] {
      var n := |run| - 1;
      forall k | 0 <= k < n
        ensures Ticks(run[..n][k].0, Reminded(r, run[..n][..k]), run[..n][k].1) > 0
      {
        assert run[..n][..k] == run[..k];
      }
      DueGrows(r, run[..n]);
      RampReachesTarget(r, run[..n]);
    }
  }

  /** A run of reminders on a clock that never goes back. */
  predicate OnTime(since: nat, run: seq<(Settings, nat)>) {
    && (forall i | 0 <= i < |run| :: since <= run[i].1)
    && (forall i, j | 0 <= i < j < |run| :: run[i].1 <= run[j].1)
  }

  /** At every reminder of the run the momentum is at least this. */
  ghost predicate Heavy(r: Ramp, run: seq<(Settings, nat)>, m: nat) {
    forall k | 0 <= k < |run| :: GetMomentum(run[k].0, Reminded(r, run[..k])) >= m
  }

  /** No time counts twice: over any run the notches that came due took at least their time. */
  lemma {:induction false} NoFaster(r: Ramp, run: seq<(Settings, nat)>, m: nat)
    requires OnTime(r.base, run) && Heavy(r, run, m) && m > 0
    ensures var t := Reminded(r, run);
      && r.base + 7 * m * Due(r, run) <= t.base
      && (if run == [] then t.base == r.base else t.base <= run[|run| - 1].1)
    decreases |run|
  {
    hide *;
    LastOfRun(r, run);
    if run != [] {
      var n := |run| - 1;
      HeavyBefore(r, run, m);
      OnTimeBefore(r.base, run);
      NoFaster(r, run[..n], m);
      var before := Reminded(r, run[..n]);
      NoFasterOnce(run[n].0, before, run[n].1, m);
      var u := Ticks(run[n].0, before, run[n].1);
      assert 7 * m * (Due(r, run[..n]) + u) == 7 * m * Due(r, run[..n]) + 7 * m * u;
    }
  }

  lemma LastOfRun(r: Ramp, run: seq<(Settings, nat)>)
    ensures run == [] ==> Reminded(r, run) == r && Due(r, run) == 0
    ensures run != [] ==>
      var before, (s, now) := Reminded(r, run[..|run| - 1]), run[|run| - 1];
      var u := Ticks(s, before, now);
      && Reminded(r, run) == Remind(s, before, now)
      && Due(r, run) == Due(r, run[..|run| - 1]) + (if before.speed != before.target && u > 0 then u else 0)
  {
    hide Remind, Ticks;
  }

  lemma OnTimeBefore(since: nat, run: seq<(Settings, nat)>)
    requires run != [] && OnTime(since, run)
    ensures OnTime(since, run[..|run| - 1]) && since <= run[|run| - 1].1
    ensures |run| > 1 ==> run[|run| - 2].1 <= run[|run| - 1].1
  {
  }

  lemma HeavyBefore(r: Ramp, run: seq<(Settings, nat)>, m: nat)
    requires run != [] && Heavy(r, run, m)
    ensures Heavy(r, run[..|run| - 1], m)
    ensures GetMomentum(run[|run| - 1].0, Reminded(r, run[..|run| - 1])) >= m
  {
    hide GetMomentum, Reminded;
    var n := |run| - 1;
    forall k | 0 <= k < n ensures GetMomentum(run[..n][k].0, Reminded(r, run[..n][..k])) >= m {
      assert run[..n][..k] == run[..k];
    }
  }

  lemma NoFasterOnce(s: Settings, r: Ramp, now: nat, m: nat)
    requires r.base <= now && 0 < m <= GetMomentum(s, r)
    ensures var u := Ticks(s, r, now);
      if r.speed != r.target && u > 0 then r.base + 7 * m * u <= now == Remind(s, r, now).base
      else Remind(s, r, now).base == r.base
  {
    NotchesDue(s, r, now);
    DelayIsReal(r, now);
    var u := Ticks(s, r, now);
    hide Delay, Ticks;
    if u > 0 {
      WhenDue(s, r, now);
      Grows(u, 7 * GetMomentum(s, r), 7 * m);
    }
  }

  lemma DelayIsReal(r: Ramp, now: nat)
    requires r.base <= now
    ensures Delay(r, now) <= now - r.base
  {
  }

  /** If only the direction is to change, a reminder changes it exactly if more notches are due than the speed. */
  lemma TurnsRound(s: Settings, r: Ramp, now: nat)
    requires r.target == (r.speed + 128) % 256
    ensures (Remind(s, r, now).speed >= 128) == (r.target >= 128) <==> Ticks(s, r, now) > r.speed % 128
  {
    RemindApproaches(s, r, now);
    hide Ticks, Remind;
  }

  /** An input on which it does not: in reverse at 20, and told to go forward at 15. */
  lemma WrongWay()
    ensures var s, r := Settings(255, 10, 0, 0, true), Ramp(148, 20, 0);
      Remind(s, r, 350).speed == 143
  {
    hide *;
    var s, r := Settings(255, 10, 0, 0, true), Ramp(148, 20, 0);
    WrongWayTicks();
    WrongWayMove();
    FewTicksMove(s, r, 350);
  }

  lemma WrongWayTicks()
    ensures Ticks(Settings(255, 10, 0, 0, true), Ramp(148, 20, 0), 350) == 5
  {
    hide ToInt16;
    assert 350 % 0x1_0000_0000 == 350;
    FitsInt16(350);
    assert 350 / 70 == 5;
  }

  lemma WrongWayMove()
    ensures Dccalize(Moved(Normalize(148), Normalize(20), 5)) == 143
  {
  }

  lemma FewTicksMove(s: Settings, r: Ramp, now: nat)
    requires Ticks(s, r, now) > 0 && r.speed != r.target
    ensures Remind(s, r, now).speed == Dccalize(Moved(Normalize(r.speed), Normalize(r.target), Ticks(s, r, now)))
  {
    hide Ticks, Dccalize, Moved, Normalize;
  }

  // ---------- Emergency stops on the way ----------

  /** On the normal scale, the speeds whose code is that of an emergency stop: 129 forwards and 1 in reverse. */
  predicate IsStop(n: int) {
    n == 1 || n == -2
  }

  /** The ramp steps on one of them: it stands there with nothing due, it gets there by the notches due, or the
      target is one and is due. */
  predicate StepsOnStop(s: Settings, r: Ramp, now: nat) {
    var c, t, u := Normalize(r.speed), Normalize(r.target), Ticks(s, r, now);
    if c == t || u <= 0 then IsStop(c)
    else if c < t then if c + u < t then IsStop(c + u) else IsStop(t)
    else if c - u > t then IsStop(c - u) else IsStop(t)
  }

  /** Exactly then the speed that is sent next is an emergency stop. */
  lemma StopIsOnTheWay(s: Settings, r: Ramp, now: nat)
    ensures Remind(s, r, now).speed % 128 == 1 <==> StepsOnStop(s, r, now)
  {
    WhenDue(s, r, now);
    hide Ticks;
    var u, c, t := Ticks(s, r, now), Normalize(r.speed), Normalize(r.target);
    ScalesAgree(r.speed, c);
    ScalesAgree(r.target, t);
    StopCodes(r.speed);
    StopCodes(Remind(s, r, now).speed);
    if u > 0 {
      FitsInt16(c + u);
      FitsInt16(c - u);
      ScalesAgree(r.speed, Moved(c, t, u));
    }
  }

  lemma StopCodes(speed: byte)
    ensures speed % 128 == 1 <==> IsStop(Normalize(speed))
  {
  }

  /** An input: a standing loco accelerates, and 70 ms later is told to make an emergency stop. */
  lemma AcceleratingStops()
    ensures Remind(Settings(10, 10, 0, 0, true), Ramp(128, 200, 0), 70) == Ramp(129, 200, 70)
  {
    hide GetMomentum, Delay, Normalize, Dccalize, Moved;
    assert GetMomentum(Settings(10, 10, 0, 0, true), Ramp(128, 200, 0)) == 10 by { SampleMomentum(); }
    FirstDelay();
    FirstNotch();
    assert 70 / 70 == 1;
  }

  lemma FirstDelay()
    ensures Delay(Ramp(128, 200, 0), 70) == 70
  {
    hide ToInt16;
    assert 70 % 0x1_0000_0000 == 70;
    FitsInt16(70);
  }

  lemma FirstNotch()
    ensures Dccalize(Moved(Normalize(128), Normalize(200), 1)) == 129
  {
  }

  /** A ramp that goes notch by notch past such a speed is sent as an emergency stop there. */
  lemma {:induction false} NoWayRound(r: Ramp, run: seq<(Settings, nat)>, n: int) returns (k: nat)
    requires forall k | 0 <= k < |run| :: Ticks(run[k].0, Reminded(r, run[..k]), run[k].1) <= 1
    requires IsStop(n)
    requires var c, t := Normalize(r.speed), Normalize(Reminded(r, run).speed); c < n <= t || t <= n < c
    ensures 0 < k <= |run| && Normalize(Reminded(r, run[..k]).speed) == n && Reminded(r, run[..k]).speed % 128 == 1
    decreases |run|
  {
    hide Remind, Normalize, Ticks, Distance, Due;
    var m := |run| - 1;
    var before := Reminded(r, run[..m]);
    RampReachesTarget(r, run[..m]);
    RemindApproaches(run[m].0, before, run[m].1);
    OneNotch(run[m].0, before, run[m].1);
    var b, t := Normalize(before.speed), Normalize(Reminded(r, run).speed);
    assert run[..|run|] == run;
    if t == n {
      k := |run|;
    } else {
      forall k | 0 <= k < m ensures Ticks(run[..m][k].0, Reminded(r, run[..m][..k]), run[..m][k].1) <= 1 {
        assert run[..m][..k] == run[..k];
      }
      k := NoWayRound(r, run[..m], n);
      assert run[..m][..k] == run[..k];
    }
    StopCodes(Reminded(r, run[..k]).speed);
  }

  /** At most one notch is due, so the speed changes by at most one. */
  lemma OneNotch(s: Settings, r: Ramp, now: nat)
    requires Ticks(s, r, now) <= 1
    ensures -1 <= Normalize(Remind(s, r, now).speed) - Normalize(r.speed) <= 1
  {
    RemindApproaches(s, r, now);
    hide Ticks, Remind, Normalize;
  }
}

/** The timers of a task in EXRAIL2.cpp: delayMe, the delays of a script, and the instructions that wait. */
module ExrailTimer {
  import opened Bytes
  import opened ExrailScript
  import opened ExrailVm

  // Opcodes, with their places in the enum of EXRAIL2.h.
  const RESERVE: byte := 11
  const AT: byte := 13
  const AFTER: byte := 14
  const AFTEROVERLOAD: byte := 15
  const ATGTE: byte := 17
  const ATLT: byte := 18
  const ATTIMEOUT1: byte := 19
  const ATTIMEOUT2: byte := 20
  const DELAY: byte := 28
  const DELAYMINS: byte := 29
  const DELAYMS: byte := 30
  const RANDWAIT: byte := 31
  const WAITFOR: byte := 47
  const READ_LOCO2: byte := 55
  const WAITFORTT: byte := 97
  const WAIT_WHILE_RED: byte := 132

  /** A task with its delayStart, its delayTime, and the word that waitAfter and timeoutStart share. */
  datatype Timed = Timed(task: Task, start: nat, delay: nat, mark: nat)

  /** What a call of loop2 sees: the time in milliseconds, whether what the instruction waits for is there (a sensor
      on for AT and ATTIMEOUT, off for AFTER, power on for AFTEROVERLOAD), and the microsecond clock. */
  datatype Look = Look(now: nat, free: bool, micros: nat)

  /** The first line of loop2. */
  predicate Sleeping(x: Timed, now: nat) {
    x.delay != 0 && Elapsed(now, x.start) < x.delay
  }

  /** How long to wait before a look at what is not there is repeated; 0 for instructions that never wait. */
  function Retry(op: byte): nat {
    if op == RESERVE || op == WAIT_WHILE_RED then 500
    else if op in {AT, ATGTE, ATLT, ATTIMEOUT2, AFTER, AFTEROVERLOAD} then 50
    else if op in {WAITFOR, WAITFORTT, READ_LOCO2} then 100
    else 0
  }

  /** getOperand(1), whatever is there. */
  function Second(code: seq<byte>): word {
    if HasInstr(code) && HasInstr(code[3..]) then Operand(code[3..]) else 0
  }

  /** The instruction does not have to wait. */
  predicate Ready(x: Timed, i: Look)
    requires HasInstr(x.task.code)
  {
    var op := x.task.code[0];
    if op == AFTER then i.free && Elapsed(i.now, x.mark) >= Second(x.task.code)
    else if op == AFTEROVERLOAD then i.free && Elapsed(i.now, x.mark) >= 500
    else if op == ATTIMEOUT2 then i.free || Elapsed(i.now, x.mark) > 100 * Second(x.task.code)
    else i.free || Retry(op) == 0
  }

  /** delayMe of a long; operands are signed. */
  function DelayOf(op: byte, arg: word, micros: nat): (d: nat)
    ensures d < 0x1_0000_0000
  {
    var n := ToInt16(arg);
    (if op == DELAYMS then n
     else if op == DELAY then 100 * n
     else if op == DELAYMINS then 60000 * n
     else if n == 0 then 0
     else 100 * (micros % (n % 0x1_0000_0000))) % 0x1_0000_0000
  }

  predicate Delays(op: byte) {
    op in {DELAY, DELAYMINS, DELAYMS, RANDWAIT}
  }

  /** RMFT2::loop2 with its timers. */
  function Loop2(route: seq<byte>, x: Timed, outcome: nat -> bool, i: Look): Timed {
    if Sleeping(x, i.now) then x
    else if !x.task.alive || !HasInstr(x.task.code) then x.(task := Step(route, x.task, outcome))
    else
      var op := x.task.code[0];
      if Ready(x, i) then
        var y := x.(task := Step(route, x.task, outcome), mark := if op == ATTIMEOUT1 then i.now else x.mark);
        if Delays(op) then y.(start := i.now, delay := DelayOf(op, Operand(x.task.code), i.micros)) else y
      else if i.free then x
      else
        x.(task := Wait(x.task), start := i.now, delay := Retry(op),
           mark := if op == AFTER || op == AFTEROVERLOAD then i.now else x.mark)
  }

  function Loop2All(route: seq<byte>, x: Timed, outcome: nat -> bool, looks: seq<Look>): Timed
    decreases |looks|
  {
    if looks == [] then x else Loop2All(route, Loop2(route, x, outcome, looks[0]), outcome, looks[1..])
  }

  // ---------- Timers only delay ----------

  /** Of the calls that do anything, which complete an instruction. */
  function Completed(route: seq<byte>, x: Timed, outcome: nat -> bool, looks: seq<Look>): seq<bool>
    decreases |looks|
  {
    if looks == [] then []
    else
      var i, more := looks[0], Completed(route, Loop2(route, x, outcome, looks[0]), outcome, looks[1..]);
      if Sleeping(x, i.now) then more
      else if !x.task.alive || !HasInstr(x.task.code) || Ready(x, i) then [true] + more
      else if i.free then more
      else [false] + more
  }

  lemma {:induction false} TimersAreWaits(route: seq<byte>, x: Timed, outcome: nat -> bool, looks: seq<Look>)
    ensures Loop2All(route, x, outcome, looks).task
         == RunWaiting(route, x.task, outcome, Completed(route, x, outcome, looks))
    decreases |looks|
  {
    hide Step, Ready, Sleeping, DelayOf;
    if looks != [] {
      var y := Loop2(route, x, outcome, looks[0]);
      var more := Completed(route, y, outcome, looks[1..]);
      TimersAreWaits(route, y, outcome, looks[1..]);
      assert ([true] + more)[1..] == more && ([false] + more)[1..] == more;
    }
  }

  /** Main result: whenever loop2 is called and whatever it then sees, timers, sensors, sections and signals only
      delay a task: it does the same things in the same order as one that never waits, one for each call that
      completes an instruction. */
  lemma TimersOnlyDelay(route: seq<byte>, x: Timed, outcome: nat -> bool, looks: seq<Look>)
    ensures Rested(Loop2All(route, x, outcome, looks).task)
         == Run(route, Rested(x.task), outcome, Count(Completed(route, x, outcome, looks)))
  {
    TimersAreWaits(route, x, outcome, looks);
    WaitingOnlyDelays(route, x.task, outcome, Completed(route, x, outcome, looks));
  }

  // ---------- Delays ----------

  /** A task whose timer has been set does nothing before its time has elapsed, however often it is called, and
      something as soon as it is called after that, if within the 49.7 days of the clock. */
  lemma {:induction false} DelayIsKept(route: seq<byte>, x: Timed, outcome: nat -> bool, looks: seq<Look>, now: nat)
    requires x.delay < 0x1_0000_0000 && forall k | 0 <= k < |looks| :: x.start <= looks[k].now < x.start + x.delay
    requires x.start <= now < x.start + 0x1_0000_0000
    ensures Loop2All(route, x, outcome, looks) == x
    ensures Sleeping(x, now) <==> now < x.start + x.delay
    decreases |looks|
  {
    if looks != [] {
      SmallElapsed(looks[0].now, x.start);
      DelayIsKept(route, x, outcome, looks[1..], now);
    }
    SmallElapsed(now, x.start);
  }

  lemma SmallElapsed(now: nat, since: nat)
    requires since <= now < since + 0x1_0000_0000
    ensures Elapsed(now, since) == now - since
  {
  }

  /** The instructions for delays start the timer and are done with that. */
  lemma DelayStarts(route: seq<byte>, x: Timed, outcome: nat -> bool, i: Look)
    requires x.task.alive && HasInstr(x.task.code) && !Sleeping(x, i.now)
    requires x.task.code[0] in {DELAY, DELAYMINS, DELAYMS, RANDWAIT}
    ensures var y := Loop2(route, x, outcome, i);
      && Passed(x, y) && y.start == i.now && y.mark == x.mark
      && y.delay == DelayOf(x.task.code[0], Operand(x.task.code), i.micros)
  {
    hide DelayOf, Elapsed, Second;
  }

  /** DELAYMINS(n) waits for n minutes below 32768 of them, and the random part of DELAYRANDOM for fewer than n
      tenths of a second, whatever the clock says. */
  lemma LongDelays(n: word, micros: nat)
    requires n < 0x8000
    ensures DelayOf(DELAYMINS, n, micros) == n * 60 * 1000
    ensures DelayOf(RANDWAIT, n, micros) % 100 == 0
    ensures if n == 0 then DelayOf(RANDWAIT, n, micros) == 0 else DelayOf(RANDWAIT, n, micros) < n * 100
  {
    FitsInt16(n);
    hide ToInt16;
    if n > 0 {
      assert n % 0x1_0000_0000 == n;
      var r := micros % n;
      assert 0 <= r < n && 100 * r < 0x1_0000_0000;
      assert 100 * r % 0x1_0000_0000 == 100 * r;
    }
  }

  /** Main result on delays: once DELAY(ms) has been run, the task does nothing before ms later, above 30 s cut to
      tenths of a second, however often it is called, and is awake from then on. */
  lemma DelayDelays(route: seq<byte>, x: Timed, outcome: nat -> bool, i: Look, ms: nat, rest: seq<byte>,
      looks: seq<Look>, now: nat)
    requires ms < 3276800 && !Sleeping(x, i.now) && x.task.alive
    requires var (op, arg) := DelayInstr(ms); x.task.code == Instr(op, arg) + rest
    requires forall k | 0 <= k < |looks| :: i.now <= looks[k].now < i.now + if ms < 30000 then ms else ms / 100 * 100
    requires i.now <= now < i.now + 0x1_0000_0000
    ensures var y := Loop2(route, x, outcome, i);
      && y.task.code == rest && Loop2All(route, y, outcome, looks) == y
      && (Sleeping(y, now) <==> now < i.now + if ms < 30000 then ms else ms / 100 * 100)
  {
    var (op, arg) := DelayInstr(ms);
    assert x.task.code[3..] == rest && x.task.code[0] == op && Operand(x.task.code) == arg;
    DelayStarts(route, x, outcome, i);
    DelayIsMeant(ms, i.micros);
    hide Loop2, DelayOf, Sleeping, Operand;
    DelayIsKept(route, Loop2(route, x, outcome, i), outcome, looks, now);
  }

  /** The macro DELAY of EXRAILMacros.h. */
  function DelayInstr(ms: nat): (byte, word) {
    if ms < 30000 then (DELAYMS, ms) else (DELAY, ms / 100 % 0x1_0000)
  }

  /** DELAY(ms) waits for ms, above 30 s cut to tenths of a second, if and only if that is below 54.6 minutes. */
  lemma DelayIsMeant(ms: nat, micros: nat)
    requires ms < 0x8000_0000
    ensures var (op, arg) := DelayInstr(ms);
      DelayOf(op, arg, micros) == (if ms < 30000 then ms else ms / 100 * 100) <==> ms < 3276800
  {
    if ms < 30000 {
      FitsInt16(ms);
    } else {
      hide ToInt16;
      Tenths(ms);
      TenthsFit(ms / 100);
    }
  }

  lemma Tenths(ms: nat)
    ensures ms / 100 < 0x8000 <==> ms < 3276800
    ensures ms < 0x8000_0000 ==> ms / 100 < 21474837
  {
  }

  lemma TenthsFit(n: nat)
    requires n < 21474837
    ensures 100 * ToInt16(n % 0x1_0000) % 0x1_0000_0000 == n * 100 <==> n < 0x8000
  {
    var v := ToInt16(n % 0x1_0000);
    if v < 0 {
      assert 100 * v % 0x1_0000_0000 == 100 * v + 0x1_0000_0000;
    } else {
      assert 100 * v % 0x1_0000_0000 == 100 * v;
    }
  }

  /** One of the inputs on which it does not: DELAY of an hour waits for more than 49 days. */
  lemma DelayOfAnHour()
    ensures var (op, arg) := DelayInstr(3600000); DelayOf(op, arg, 0) > 49 * 24 * 3600 * 1000
  {
    assert 3600000 / 100 % 0x1_0000 == 36000;
    assert ToInt16(36000) == -29536;
    assert -2953600 % 0x1_0000_0000 == 4292013696;
  }

  // ---------- What is waited for ----------

  /** The task stands at an instruction with this opcode. */
  predicate At(x: Timed, op: byte) {
    x.task.alive && HasInstr(x.task.code) && x.task.code[0] == op
  }

  /** A task that has only waited: where it was, with the same calls and tests, and nothing done. */
  predicate OnlyWaited(x: Timed, y: Timed) {
    && y.task.alive == x.task.alive && y.task.code == x.task.code && y.task.stack == x.task.stack
    && y.task.tests == x.task.tests && Active(y.task.trace) == Active(x.task.trace)
  }

  /** The instruction at which the task stood is done, and nothing else. */
  predicate Passed(x: Timed, y: Timed)
    requires HasInstr(x.task.code)
  {
    && y.task.alive && y.task.code == x.task.code[3..] && y.task.stack == x.task.stack && y.task.tests == x.task.tests
    && y.task.trace
      == x.task.trace + [Did(x.task.code[0], Operand(x.task.code), PadOperands(x.task.code[3..]))]
  }

  /** RESERVE waits for its section, WAIT_WHILE_RED for its signal, AT, ATGTE and ATLT for their sensor, WAITFOR and
      WAITFORTT for what moves to stop, and the second part of READ_LOCO for the loco: a look that finds it is the end
      of the instruction, and one that does not is repeated after 500, 50 or 100 ms. */
  lemma LooksDecide(route: seq<byte>, x: Timed, outcome: nat -> bool, i: Look, op: byte)
    requires op in {RESERVE, WAIT_WHILE_RED, AT, ATGTE, ATLT, WAITFOR, WAITFORTT, READ_LOCO2}
    requires At(x, op) && !Sleeping(x, i.now)
    ensures var y := Loop2(route, x, outcome, i);
      if i.free then Passed(x, y) && (y.start, y.delay, y.mark) == (x.start, x.delay, x.mark)
      else
        && OnlyWaited(x, y) && y.start == i.now && y.mark == x.mark
        && y.delay == (if op in {RESERVE, WAIT_WHILE_RED} then 500 else if op in {AT, ATGTE, ATLT} then 50 else 100)
  {
    hide Active, DelayOf, Elapsed, Second;
    ActiveOne(x.task.trace, Waited(op, Operand(x.task.code)));
  }

  /** Main result on waiting: while no look out of sleep finds what one of these instructions waits for, any calls
      leave the task where it is with nothing done, and the first that does gets past it. */
  lemma {:induction false} WaitsUntilFree(route: seq<byte>, x: Timed, outcome: nat -> bool, looks: seq<Look>, op: byte,
      i: Look)
    requires op in {RESERVE, WAIT_WHILE_RED, AT, ATGTE, ATLT, WAITFOR, WAITFORTT, READ_LOCO2} && At(x, op)
    requires forall k | 0 <= k < |looks| ::
      Sleeping(Loop2All(route, x, outcome, looks[..k]), looks[k].now) || !looks[k].free
    ensures var y := Loop2All(route, x, outcome, looks);
      && OnlyWaited(x, y) && At(y, op)
      && (!Sleeping(y, i.now) && i.free ==> Passed(y, Loop2(route, y, outcome, i)))
    decreases |looks|
  {
    hide Active, Loop2, Sleeping;
    var y := Loop2All(route, x, outcome, looks);
    if looks == [] {
      if !Sleeping(x, i.now) {
        LooksDecide(route, x, outcome, i, op);
      }
    } else {
      var z := Loop2(route, x, outcome, looks[0]);
      assert looks[..0] == [];
      if Sleeping(x, looks[0].now) {
        SleepIsNothing(route, x, outcome, looks[0]);
      } else {
        LooksDecide(route, x, outcome, looks[0], op);
      }
      forall k | 0 <= k < |looks| - 1
        ensures Sleeping(Loop2All(route, z, outcome, looks[1..][..k]), looks[1..][k].now) || !looks[1..][k].free
      {
        assert looks[..k + 1][1..] == looks[1..][..k];
        assert Loop2All(route, x, outcome, looks[..k + 1]) == Loop2All(route, z, outcome, looks[1..][..k]);
      }
      WaitsUntilFree(route, z, outcome, looks[1..], op, i);
    }
  }

  lemma SleepIsNothing(route: seq<byte>, x: Timed, outcome: nat -> bool, i: Look)
    requires Sleeping(x, i.now)
    ensures Loop2(route, x, outcome, i) == x
  {
  }

  /** The first part of ATTIMEOUT starts its time. */
  lemma TimeoutStarts(route: seq<byte>, x: Timed, outcome: nat -> bool, i: Look)
    requires At(x, ATTIMEOUT1) && !Sleeping(x, i.now)
    ensures var y := Loop2(route, x, outcome, i);
      Passed(x, y) && y.mark == i.now && (y.start, y.delay) == (x.start, x.delay)
  {
    hide Elapsed, DelayOf;
  }

  /** The second part is left at the first look that finds the sensor on, or more than n tenths of a second after
      that; otherwise it is repeated 50 ms later. */
  lemma TimeoutEnds(route: seq<byte>, x: Timed, outcome: nat -> bool, i: Look)
    requires At(x, ATTIMEOUT2) && !Sleeping(x, i.now)
    ensures var y := Loop2(route, x, outcome, i);
      if i.free || Elapsed(i.now, x.mark) > 100 * Second(x.task.code) then Passed(x, y)
      else OnlyWaited(x, y) && (y.start, y.delay, y.mark) == (i.now, 50, x.mark)
  {
    hide Active, Elapsed, DelayOf, Second, Sleeping;
    ActiveOne(x.task.trace, Waited(x.task.code[0], Operand(x.task.code)));
  }

  /** No other action waits: out of sleep, it is done at once. */
  lemma OthersDoNotWait(route: seq<byte>, x: Timed, outcome: nat -> bool, i: Look)
    requires x.task.alive && HasInstr(x.task.code) && IsAction(x.task.code[0]) && !Sleeping(x, i.now)
    requires x.task.code[0] !in {RESERVE, WAIT_WHILE_RED, AT, ATGTE, ATLT, WAITFOR, WAITFORTT, READ_LOCO2}
    requires x.task.code[0] !in {ATTIMEOUT2, AFTER, AFTEROVERLOAD}
    ensures Passed(x, Loop2(route, x, outcome, i))
  {
  }

  // ---------- AFTER and AFTEROVERLOAD ----------

  /** The task stands at an AFTER, or an AFTEROVERLOAD. */
  predicate AtAfter(x: Timed) {
    At(x, AFTER) || At(x, AFTEROVERLOAD)
  }

  /** How long the sensor has to be off, or the power on. */
  function Quiet(x: Timed): nat
    requires AtAfter(x)
  {
    if x.task.code[0] == AFTER then Second(x.task.code) else 500
  }

  /** A look that finds the sensor on, or the power off, starts the time again, and the next look is 50 ms later. */
  lemma AfterSeesSensor(route: seq<byte>, x: Timed, outcome: nat -> bool, i: Look)
    requires AtAfter(x) && !Sleeping(x, i.now) && !i.free
    ensures Loop2(route, x, outcome, i) == Timed(Wait(x.task), i.now, 50, i.now)
    ensures AtAfter(Loop2(route, x, outcome, i)) && Wait(x.task).code == x.task.code
  {
  }

  /** From then on, while no look finds the sensor on, an AFTER is left by the first look at which the sensor has
      been off for the time that was asked for, and by none before: the looks at `looks` do nothing, and the one
      at `i` ends it if and only if that time is over.  AFTEROVERLOAD does the same with 500 ms of power. */
  lemma {:induction false} AfterIsLeft(route: seq<byte>, x: Timed, outcome: nat -> bool, looks: seq<Look>, i: Look)
    requires AtAfter(x)
    requires forall k | 0 <= k < |looks| ::
      Sleeping(x, looks[k].now) || (looks[k].free && Elapsed(looks[k].now, x.mark) < Quiet(x))
    ensures Loop2All(route, x, outcome, looks) == x
    ensures Loop2(route, x, outcome, i).task.code == x.task.code[3..] <==>
      !Sleeping(x, i.now) && i.free && Elapsed(i.now, x.mark) >= Quiet(x)
    ensures Loop2(route, x, outcome, i).task.code == x.task.code[3..] ==> Passed(x, Loop2(route, x, outcome, i))
    decreases |looks|
  {
    hide Sleeping, Elapsed;
    if looks != [] {
      assert Loop2(route, x, outcome, looks[0]) == x;
      AfterIsLeft(route, x, outcome, looks[1..], i);
    }
    assert |x.task.code[3..]| < |x.task.code|;
  }

  /** If no look finds the sensor on, that time runs from whatever the word has been used for before.  An input:
      the AT that the macro AFTER puts in front sees a train, 10 ms later it is gone, and the 500 ms are not
      waited for. */
  lemma AfterIsSkipped(outcome: nat -> bool, rest: seq<byte>)
    ensures var code := Instr(AT, 5) + (Instr(AFTER, 5) + (Instr(PAD, 500) + rest));
      var x := Timed(Task(true, code, [], 0, []), 0, 0, 0);
      Loop2All(code, x, outcome, [Look(1000, true, 0), Look(1010, true, 0)]).task.code == Instr(PAD, 500) + rest
  {
    var pads := Instr(PAD, 500) + rest;
    var after := Instr(AFTER, 5) + pads;
    var code := Instr(AT, 5) + after;
    var x := Timed(Task(true, code, [], 0, []), 0, 0, 0);
    var looks := [Look(1000, true, 0), Look(1010, true, 0)];
    assert code[3..] == after && after[3..] == pads && Second(after) == 500;
    AtIsLeft(code, x, outcome, looks[0]);
    hide Loop2, Second, Instr;
    var y := Loop2(code, x, outcome, looks[0]);
    AfterIsLeft(code, y, outcome, [], looks[1]);
    assert looks[1..][1..] == [];
    assert Loop2All(code, x, outcome, looks) == Loop2All(code, y, outcome, looks[1..]);
    assert Loop2All(code, y, outcome, looks[1..]) == Loop2(code, y, outcome, looks[1]);
  }

  lemma AtIsLeft(route: seq<byte>, x: Timed, outcome: nat -> bool, i: Look)
    requires x.task.alive && HasInstr(x.task.code) && x.task.code[0] == AT && !Sleeping(x, i.now) && i.free
    ensures var y := Loop2(route, x, outcome, i);
      && y.task.alive && y.task.code == x.task.code[3..] && (y.start, y.delay, y.mark) == (x.start, x.delay, x.mark)
  {
  }
}

/** The ackManager statics of DCCACK.cpp with the code that updates them.  Programs stay in flash as
    a byte sequence and the program pointer is an index into it. */
module AckManager {
  import opened Bytes
  import opened AckVm
  import opened AckLogic

  class Manager {
    const ackRetry: byte            // attempts after the first

    var job: Job                    // ackManagerProgStart, ackManagerRejoin, autoPowerOff
    var pc: nat                     // ackManagerProg - ackManagerProgStart
    var active: bool                // ackManagerProg != NULL
    var regs: Regs                  // ackManagerByte, ...ByteVerify, ...Stash, ...Word, ...Cv, ...BitNum, ackReceived
    var retry: nat                  // ackManagerRetry
    var power: Power                // callbackState, callbackStart and the track's power and join flags
    var sent: seq<Packet>           // what the waveform generator was given since Setup
    var calls: seq<int>             // what the user callback was given since Setup

    constructor (ackRetry: byte)
      ensures this.ackRetry == ackRetry && !active
    {
      this.ackRetry := ackRetry;
      job, pc, active, retry := Job([], false, false), 0, false, 0;
      regs := Regs(0, 0, 0, 0, 0, 0, false);
      power, sent, calls := Power(READY, 0, false, false), [], [];
    }

    /** The pointer is at a well-formed rest of a well-formed program. */
    ghost predicate Valid()
      reads this
    {
      active ==> pc <= |job.prog| && WellFormed(job.prog) && WellFormed(job.prog[pc..])
    }

    /** The state of the machine that the theorems are about. */
    function Abs(): State
      reads this
    {
      State(job, if pc <= |job.prog| then job.prog[pc..] else [], active, regs, retry, power, sent, calls)
    }

    /** DCCACK::Setup.  `hasTrack` and `canMeasure` say what the programming track's driver is. */
    method Setup(cv: int, byteValueOrBitnum: byte, program: seq<byte>, hasTrack: bool, canMeasure: bool)
      requires WellFormed(program)
      modifies this
      ensures hasTrack && canMeasure ==> Valid() && Abs() == State(
        Job(program, old(power.joined), !old(power.on)), program, true,
        old(regs).(value := byteValueOrBitnum, verify := byteValueOrBitnum, bit := byteValueOrBitnum, cv := cv),
        ackRetry, old(power).(on := true, joined := false), [], [])
      ensures !(hasTrack && canMeasure) ==>
        && calls == [if hasTrack then -2 else -3]
        && active == old(active) && pc == old(pc) && retry == old(retry) && sent == []
        && regs == old(regs) && job == old(job).(rejoin := old(power.joined))
        && power == (if hasTrack then old(power) else old(power).(joined := false))
    {
      sent, calls := [], [];
      job := job.(rejoin := power.joined);
      if job.rejoin {
        power := power.(joined := false);
      }
      if !hasTrack {
        power := power.(joined := false);
        calls := calls + [-3];
        return;
      }
      if !canMeasure {
        power := power.(joined := job.rejoin);
        calls := calls + [-2];
        return;
      }
      job := job.(autoPowerOff := false);
      if !power.on {
        job := job.(autoPowerOff := true);
        power := power.(on := true);
      }
      job, pc, active := job.(prog := program), 0, true;
      retry := ackRetry;
      regs := regs.(cv := cv, value := byteValueOrBitnum, verify := byteValueOrBitnum, bit := byteValueOrBitnum);
      assert program[0..] == program;
    }

    /** DCCACK::Setup for the programs that work on a word. */
    method SetupWord(wordval: int, program: seq<byte>, hasTrack: bool, canMeasure: bool)
      requires WellFormed(program)
      modifies this
      ensures hasTrack && canMeasure ==> Valid() && Abs() == State(
        Job(program, old(power.joined), !old(power.on)), program, true,
        old(regs).(value := 0, verify := 0, bit := 0, cv := 0, word := wordval),
        ackRetry, old(power).(on := true, joined := false), [], [])
      ensures !(hasTrack && canMeasure) ==>
        && calls == [if hasTrack then -2 else -3]
        && active == old(active) && pc == old(pc) && retry == old(retry) && sent == []
        && regs == old(regs).(word := wordval) && job == old(job).(rejoin := old(power.joined))
        && power == (if hasTrack then old(power) else old(power).(joined := false))
    {
      regs := regs.(word := wordval);
      Setup(0, 0, program, hasTrack, canMeasure);
    }

    /** The skip loops of DCCACK::loop, from a skip opcode to its SKIPTARGET. */
    method SkipToTarget()
      requires pc < |job.prog| && job.prog[pc] != SKIPTARGET && SKIPTARGET in job.prog[pc + 1..]
      modifies this`pc
      ensures old(pc) <= pc < |job.prog| && job.prog[pc + 1..] == AfterTarget(old(job.prog[pc + 1..]))
    {
      ghost var rest := job.prog[pc + 1..];
      var opcode := job.prog[pc];
      while opcode != SKIPTARGET
        invariant old(pc) <= pc < |job.prog| && opcode == job.prog[pc]
        invariant if opcode == SKIPTARGET then job.prog[pc + 1..] == AfterTarget(rest)
                  else SKIPTARGET in job.prog[pc + 1..] && AfterTarget(job.prog[pc + 1..]) == AfterTarget(rest)
        decreases |job.prog| - pc, opcode != SKIPTARGET
      {
        assert job.prog[pc + 1..][1..] == job.prog[pc + 2..];
        pc := pc + 1;
        opcode := job.prog[pc];
      }
    }

    /** DCCACK::callback */
    method Callback(value: int, now: nat)
      requires active
      modifies this
      ensures Abs() == AckVm.Callback(old(Abs()), value, now)
      ensures old(Valid()) ==> Valid()
    {
      if value == -1 && retry > 0 {
        retry := retry - 1;
        pc := 0;
        assert job.prog[0..] == job.prog;
        return;
      }
      match power.phase
      case AFTER_READ =>
        if job.rejoin && !job.autoPowerOff {
          power := power.(on := false, start := now, phase := WAITING_30);
        } else {
          power := power.(phase := READY);
        }
      case AFTER_WRITE =>
        if !job.rejoin && !job.autoPowerOff {
          power := power.(phase := READY);
        } else {
          power := power.(start := now, phase := WAITING_100);
        }
      case WAITING_100 =>
        if Elapsed(now, power.start) >= 100 {
          if job.autoPowerOff {
            power := power.(phase := READY);
          } else {
            power := power.(on := false, start := now, phase := WAITING_30);
          }
        }
      case WAITING_30 =>
        if Elapsed(now, power.start) >= 30 {
          power := power.(on := true, phase := READY);
        }
      case READY =>
        if job.autoPowerOff {
          power := power.(on := false);
        }
        if job.rejoin {
          power := power.(joined := true);
        }
        active := false;
        calls := calls + [ToInt16(value)];
    }

    /** ITSKIP, NAKSKIP and BAD20SKIP. */
    method Skip()
      requires pc < |job.prog| && job.prog[pc] in {ITSKIP, NAKSKIP, BAD20SKIP} && SKIPTARGET in job.prog[pc + 1..]
      modifies this`pc
      ensures old(pc) <= pc < |job.prog| && Decode(job.prog[old(pc)..], regs) == Next(job.prog[pc + 1..], regs)
    {
      var opcode := job.prog[pc];
      assert job.prog[pc..][1..] == job.prog[pc + 1..];
      if || (opcode == ITSKIP && regs.ack)
         || (opcode == NAKSKIP && !regs.ack)
         || (opcode == BAD20SKIP && regs.value > 120)
      {
        SkipToTarget();
      }
    }

    /** SETBIT, SETCV and SETBYTE. */
    method Operand()
      requires pc + 1 < |job.prog| && job.prog[pc] in {SETBIT, SETCV, SETBYTE}
      modifies this`pc, this`regs
      ensures old(pc) < pc < |job.prog| && Decode(job.prog[old(pc)..], old(regs)) == Next(job.prog[pc + 1..], regs)
    {
      var opcode := job.prog[pc];
      pc := pc + 1;
      if opcode == SETBIT {
        regs := regs.(bit := job.prog[pc]);
      } else if opcode == SETCV {
        regs := regs.(cv := job.prog[pc]);
      } else {
        regs := regs.(value := job.prog[pc]);
      }
      assert job.prog[old(pc)..][1..][1..] == job.prog[pc + 1..];
    }

    /** The opcodes that wait for the reset counter or the ack. */
    method Await(i: Input) returns (returned: bool)
      requires pc < |job.prog| && active
      requires job.prog[pc] == BASELINE || W0 <= job.prog[pc] <= WACK
      modifies this`regs, this`power, this`sent
      ensures var e := Decode(job.prog[pc..], old(regs));
        && !e.Call? && !e.RanOff? && returned == Returns(e, i)
        && (returned ==> Abs() == old(Abs()))
        && (!returned ==> e.code == job.prog[pc + 1..]
                          && Perform(old(Abs()), e, i) == Abs().(code := e.code))
    {
      var opcode := job.prog[pc];
      if opcode == BASELINE {
        if i.overload || !i.resetsSeen { return true; }
        power := power.(phase := AFTER_READ);
      } else if opcode == WACK {
        if i.poll == Pending { return true; }
        regs := regs.(ack := i.poll == Ack);
      } else {
        if !i.resetsSeen { return true; }
        sent := sent + [PacketOf(opcode, regs)];
        if IsWrite(opcode) {
          power := power.(phase := AFTER_WRITE);
        }
      }
      returned := false;
    }

    /** The opcodes that test, compute or call back; `due` asks for a callback with `v`. */
    method Compute() returns (due: bool, v: int)
      requires pc < |job.prog|
      requires job.prog[pc] !in {BASELINE, WACK, ITSKIP, NAKSKIP, BAD20SKIP, SETBIT, SETCV, SETBYTE}
      requires !(W0 <= job.prog[pc] <= V1)
      modifies this`regs
      ensures Decode(job.prog[pc..], old(regs)) == if due then Call(v, regs) else Next(job.prog[pc + 1..], regs)
    {
      var r := regs;
      due, v := false, 0;
      var opcode := job.prog[pc];
      if opcode == ITC1 {
        due, v := r.ack, 1;
      } else if opcode == ITC0 {
        due, v := r.ack, 0;
      } else if opcode == ITCB || opcode == ITCBV {
        due, v := r.ack, r.value;
      } else if opcode == ITCB7 {
        due, v := r.ack, r.value % 128;
      } else if opcode == NAKFAIL {
        due, v := !r.ack, -1;
      } else if opcode == BIV {
        regs := r.(value := r.verify);
      } else if opcode == STARTMERGE {
        regs := r.(bit := 7, value := 0);
      } else if opcode == MERGE {
        regs := Merged(r);
      } else if opcode == SETBYTEH {
        regs := r.(value := HighByte(r.word));
      } else if opcode == SETBYTEL {
        regs := r.(value := LowByte(r.word));
      } else if opcode == STASHLOCOID {
        regs := r.(stash := r.value);
      } else if opcode == COMBINELOCOID {
        due, v := true, MarkLong(r.value + (r.stash - 192) * 256);
      } else if opcode == COMBINE1920 {
        regs := r.(value := r.value % 128);
        regs := regs.(value := regs.value % 100);
        due, v := true, regs.stash * 100 + regs.value;
      } else if opcode == FAIL_IF_NONZERO_NAK {
        due, v := r.value != 0, -4;
      } else if opcode != SKIPTARGET {
        due, v := true, -1;
      }
    }

    /** The opcodes that neither send nor wait. */
    method Proceed(now: nat) returns (returned: bool)
      requires active && pc < |job.prog| && WellFormed(job.prog[pc..])
      requires !(job.prog[pc] == BASELINE || W0 <= job.prog[pc] <= WACK)
      modifies this
      ensures var e := Decode(old(job.prog[pc..]), old(regs));
        if returned then
          && e.Call? && Abs() == AckVm.Callback(old(Abs()).(regs := e.regs), e.value, now)
          && (old(Valid()) ==> Valid())
        else
          && old(pc) <= pc < |job.prog| && job == old(job) && active && e == Next(job.prog[pc + 1..], regs)
          && Abs() == old(Abs()).(code := job.prog[pc..], regs := regs)
    {
      hide Decode, WellFormed, AckVm.Callback;
      var opcode := job.prog[pc];
      OperandsAreThere(job.prog[pc..]);
      assert job.prog[pc..][1..] == job.prog[pc + 1..];
      returned := false;
      if opcode in {ITSKIP, NAKSKIP, BAD20SKIP} {
        Skip();
      } else if opcode in {SETBIT, SETCV, SETBYTE} {
        Operand();
      } else {
        var v;
        returned, v := Compute();
        if returned {
          Callback(v, now);
        }
      }
    }

    /** The switch of DCCACK::loop: it returns, or breaks on the last byte of its instruction. */
    method Switch(i: Input) returns (returned: bool)
      requires active && pc < |job.prog| && WellFormed(job.prog[pc..])
      modifies this
      ensures var e := Decode(old(job.prog[pc..]), old(regs));
        && returned == Returns(e, i)
        && (returned ==> Abs() == Perform(old(Abs()), e, i) && (old(Valid()) ==> Valid()))
        && (!returned ==> old(pc) <= pc < |job.prog| && job == old(job) && active && !e.Call? && !e.RanOff?
                          && e.code == job.prog[pc + 1..] && Perform(old(Abs()), e, i) == Abs().(code := e.code))
    {
      hide Decode, WellFormed, AckVm.Callback;
      if job.prog[pc] == BASELINE || W0 <= job.prog[pc] <= WACK {
        returned := Await(i);
      } else {
        returned := Proceed(i.now);
      }
    }

    /** One turn of the loop: the switch, and the step to the next entry unless it returned. */
    method Execute(i: Input) returns (returned: bool)
      requires Valid() && active
      modifies this
      ensures Valid()
      ensures Abs() == Step(old(Abs()), i) && returned == Yields(old(Abs()), i)
      ensures !returned ==> active && job == old(job) && old(pc) < pc <= |job.prog|
    {
      hide Decode, WellFormed;
      OperandsAreThere(job.prog[pc..]);
      DecodeKeepsWellFormed(job.prog[pc..], regs);
      returned := Switch(i);
      if !returned {
        pc := pc + 1;
      }
    }

    /** DCCACK::loop, where `env(k)` is what its k-th opcode sees: runs until an opcode returns. */
    method Loop(env: nat -> Input) returns (steps: nat)
      requires Valid()
      modifies this
      ensures Valid()
      ensures Abs() == Run(old(Abs()), Seen(env, steps))
      ensures steps == 0 <==> !old(active)
      ensures steps > 0 ==> Yields(Run(old(Abs()), Seen(env, steps - 1)), env(steps - 1))
    {
      hide Step, Yields, WellFormed, Run, Seen;
      RunsNone(Abs(), env);
      steps := 0;
      var returned := false;
      ghost var start, size := Abs(), |job.prog|;
      while active && !returned
        invariant Valid()
        invariant Abs() == Run(start, Seen(env, steps))
        invariant !returned ==> active == start.active && |job.prog| == size
        invariant returned ==> steps > 0 && Yields(Run(start, Seen(env, steps - 1)), env(steps - 1))
        invariant steps > 0 ==> start.active
        invariant !returned && steps > 0 ==> pc <= size
        decreases !returned, size - pc
      {
        var i := env(steps);
        RunsOneMore(start, env, steps);
        returned := Execute(i);
        steps := steps + 1;
      }
    }
  }

  lemma OperandsAreThere(code: seq<byte>)
    requires WellFormed(code)
    ensures |code| > 0
    ensures code[0] in {SETBIT, SETCV, SETBYTE} ==> |code| > 1
    ensures code[0] in {ITSKIP, NAKSKIP, BAD20SKIP} ==> SKIPTARGET in code[1..]
  {
  }

  lemma RunsNone(s: State, env: nat -> Input)
    ensures Run(s, Seen(env, 0)) == s
  {
  }

  lemma RunsOneMore(s: State, env: nat -> Input, n: nat)
    ensures Run(s, Seen(env, n + 1)) == Step(Run(s, Seen(env, n)), env(n))
  {
    hide Step;
    assert Seen(env, n + 1)[..|Seen(env, n)|] == Seen(env, n);
  }

  /** What the first `n` opcodes of a call of Loop see. */
  function Seen(env: nat -> Input, n: nat): seq<Input> {
    if n == 0 then [] else Seen(env, n - 1) + [env(n - 1)]
  }
}

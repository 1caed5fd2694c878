/** Reasoning about every run of the service-mode interpreter: which values it can call
    back (`CallsBackOnly`), and that it always gets there (`Measure`). */
module AckLogic {
  import opened Bytes
  import opened AckVm
  import opened Decoder

  // ---------- What a program can call back ----------

  type Outcome = (int, Regs, World) -> bool

  /** Whatever the decoder answers, running `code` stays in the program and ends at a
      callback whose value, registers and decoder satisfy `post`. */
  ghost predicate Surely(code: seq<byte>, r: Regs, w: World, post: Outcome)
    decreases |code|, 1
  {
    SurelyAfter(|code|, Decode(code, r), r, w, post)
  }

  /** The same for an effect that leaves fewer than `size` bytes of program. */
  ghost predicate SurelyAfter(size: nat, e: Effect, r: Regs, w: World, post: Outcome)
    decreases size, 0
  {
    match e
    case Next(rest, regs) => |rest| < size && Surely(rest, regs, w, post)
    case Baseline(rest) => |rest| < size && Surely(rest, r, w, post)
    case Send(op, rest) => |rest| < size && Surely(rest, r, w.Receive(PacketOf(op, r)), post)
    case Await(rest) =>
      && |rest| < size
      && (w.MayAnswer(true) ==> Surely(rest, r.(ack := true), w, post))
      && (w.MayAnswer(false) ==> Surely(rest, r.(ack := false), w, post))
    case Call(value, regs) => post(value, regs, w)
    case RanOff => false
  }

  /** The acks that an input reports are ones the decoder may give. */
  ghost predicate Honest(w: World, s: State, i: Input) {
    s.active && Decode(s.code, s.regs).Await? && i.poll != Pending ==>
      After(w, s.sent).MayAnswer(i.poll == Ack)
  }

  ghost predicate HonestRun(w: World, s: State, inputs: seq<Input>) {
    forall k | 0 <= k < |inputs| :: Honest(w, Run(s, inputs[..k]), inputs[k])
  }

  /** A failed attempt (value -1) leaves the interpreter fit for another one. */
  ghost predicate Restartable(prog: seq<byte>, post: Outcome) {
    forall r: Regs, w: World :: post(-1, r, w) ==> Surely(prog, r, w, post)
  }

  /** Either still running under `post`, or finished having called back one good value. */
  ghost predicate OnCourse(s0: State, s: State, w: World, post: Outcome) {
    && s.job.prog == s0.job.prog
    && if s.active then
         s.calls == s0.calls && Surely(s.code, s.regs, After(w, s.sent), post)
       else
         exists v :: s.calls == s0.calls + [ToInt16(v)] && post(v, s.regs, After(w, s.sent))
  }

  /** Polling a final opcode again, as the power wait does, finds the same value. */
  lemma CallIsStable(code: seq<byte>, r: Regs)
    requires Decode(code, r).Call?
    ensures Decode(code, Decode(code, r).regs) == Decode(code, r)
  {
    if code[0] != COMBINE1920 {
      assert Decode(code, r).regs == r;
    }
  }

  function Rank(p: CallbackState): nat {
    match p
    case AFTER_WRITE => 4
    case AFTER_READ => 3
    case WAITING_100 => 3
    case WAITING_30 => 2
    case READY => 1
  }

  /** The branches of DCCACK::callback in which its power timer has not run out. */
  predicate CallbackWaits(s: State, value: int, now: nat) {
    && !(value == -1 && s.retry > 0)
    && ((s.power.phase == WAITING_100 && Elapsed(now, s.power.start) < 100)
        || (s.power.phase == WAITING_30 && Elapsed(now, s.power.start) < 30))
  }

  /** Past its retries, DCCACK::callback either moves the power sequence on or finishes. */
  lemma CallbackCases(s: State, value: int, now: nat)
    requires s.active && !(value == -1 && s.retry > 0)
    ensures var t := Callback(s, value, now);
      && t.job == s.job && t.regs == s.regs && t.sent == s.sent && t.retry == s.retry && t.code == s.code
      && t.calls == (if t.active then s.calls else s.calls + [ToInt16(value)])
      && (t.active && t != s ==> Rank(t.power.phase) < Rank(s.power.phase))
      && (t == s <==> CallbackWaits(s, value, now))
  {
  }

  lemma CallbackStaysOnCourse(s0: State, s: State, value: int, now: nat, w: World, post: Outcome)
    requires value == -1 ==> Surely(s0.job.prog, s.regs, After(w, s.sent), post)
    requires s.job.prog == s0.job.prog && s.calls == s0.calls && s.active
    requires Surely(s.code, s.regs, After(w, s.sent), post) && post(value, s.regs, After(w, s.sent))
    ensures OnCourse(s0, Callback(s, value, now), w, post)
  {
    if !(value == -1 && s.retry > 0) {
      CallbackCases(s, value, now);
    }
  }

  lemma PerformStaysOnCourse(s0: State, s: State, e: Effect, i: Input, w: World, post: Outcome)
    requires OnCourse(s0, s, w, post) && s.active && !e.Call?
    requires SurelyAfter(|s.code|, e, s.regs, After(w, s.sent), post)
    requires e.Await? && i.poll != Pending ==> After(w, s.sent).MayAnswer(i.poll == Ack)
    ensures OnCourse(s0, Perform(s, e, i), w, post)
  {
    if e.Send? {
      var p := PacketOf(e.op, s.regs);
      assert (s.sent + [p])[..|s.sent|] == s.sent;
    }
  }

  lemma StepStaysOnCourse(s0: State, s: State, i: Input, w: World, post: Outcome)
    requires Restartable(s0.job.prog, post)
    requires OnCourse(s0, s, w, post) && Honest(w, s, i)
    ensures OnCourse(s0, Step(s, i), w, post)
  {
    if s.active {
      var e := Decode(s.code, s.regs);
      if e.Call? {
        CallIsStable(s.code, s.regs);
        var now := After(w, s.sent);
        assert SurelyAfter(|s.code|, e, s.regs, now, post);
        assert SurelyAfter(|s.code|, e, e.regs, now, post);
        CallbackStaysOnCourse(s0, s.(regs := e.regs), e.value, i.now, w, post);
      } else {
        PerformStaysOnCourse(s0, s, e, i, w, post);
      }
    }
  }

  /** Main result: whatever the delays, retries and power waits, the user callback only ever
      gets values that `Surely` promises, and at most one of them. */
  lemma {:induction false} CallsBackOnly(s: State, inputs: seq<Input>, w: World, post: Outcome)
    requires s.active && Surely(s.code, s.regs, After(w, s.sent), post)
    requires Restartable(s.job.prog, post)
    requires HonestRun(w, s, inputs)
    ensures OnCourse(s, Run(s, inputs), w, post)
    decreases |inputs|
  {
    if inputs != [] {
      var n := |inputs| - 1;
      forall k | 0 <= k < n
        ensures Honest(w, Run(s, inputs[..n][..k]), inputs[..n][k])
      {
        assert inputs[..n][..k] == inputs[..k];
      }
      CallsBackOnly(s, inputs[..n], w, post);
      StepStaysOnCourse(s, Run(s, inputs[..n]), inputs[n], w, post);
    }
  }

  // ---------- Termination ----------

  /** Every operand is there and is not the SKIPTARGET byte, every skip has a target in
      front of it, and the program ends in CALLFAIL. */
  predicate WellFormed(code: seq<byte>) {
    if code == [] then false
    else if code == [CALLFAIL] then true
    else if code[0] == SETBIT || code[0] == SETCV || code[0] == SETBYTE then
      |code| >= 2 && code[1] != SKIPTARGET && WellFormed(code[2..])
    else
      && (code[0] == ITSKIP || code[0] == NAKSKIP || code[0] == BAD20SKIP ==> SKIPTARGET in code[1..])
      && WellFormed(code[1..])
  }

  lemma {:induction false} AfterTargetIsWellFormed(code: seq<byte>)
    requires WellFormed(code) && SKIPTARGET in code
    ensures WellFormed(AfterTarget(code))
    decreases |code|
  {
    if code[0] == SETBIT || code[0] == SETCV || code[0] == SETBYTE {
      assert AfterTarget(code) == AfterTarget(code[1..]);
      assert code[1..][1..] == code[2..];
      assert AfterTarget(code[1..]) == AfterTarget(code[2..]);
      AfterTargetIsWellFormed(code[2..]);
    } else if code[0] != SKIPTARGET {
      AfterTargetIsWellFormed(code[1..]);
    }
  }

  /** From a well-formed program every opcode leads to a well-formed rest of it. */
  lemma DecodeKeepsWellFormed(code: seq<byte>, r: Regs)
    requires WellFormed(code)
    ensures !Decode(code, r).RanOff?
    ensures !Decode(code, r).Call? ==> WellFormed(Decode(code, r).code) && |Decode(code, r).code| < |code|
  {
    var rest := code[1..];
    if rest != [] {
      assert rest[1..] == code[2..];
    }
    if code[0] in {ITSKIP, NAKSKIP, BAD20SKIP} {
      assert code != [CALLFAIL];
      AfterTargetIsWellFormed(rest);
    }
  }

  function Times(n: nat, size: nat): nat {
    if n == 0 then 0 else size + Times(n - 1, size)
  }

  /** Retries left, then program left, then power steps left. */
  function Measure(s: State): nat {
    if s.active then Times(s.retry, 5 * |s.job.prog| + 5) + 5 * |s.code| + Rank(s.power.phase) else 0
  }

  ghost predicate InProgram(s: State) {
    WellFormed(s.job.prog) && (s.active ==> WellFormed(s.code) && |s.code| <= |s.job.prog|)
  }

  /** A step that only waits: for resets, for the ack, for power to settle, or after the end. */
  predicate Waits(s: State, i: Input) {
    !s.active || JustWaits(s, Decode(s.code, s.regs), i)
  }

  predicate JustWaits(s: State, e: Effect, i: Input) {
    if e.Call? then CallbackWaits(s, e.value, i.now) else Returns(e, i)
  }

  lemma PerformMakesProgress(s: State, e: Effect, i: Input)
    requires s.active && WellFormed(s.job.prog) && WellFormed(s.code) && |s.code| <= |s.job.prog|
    requires !e.RanOff?
    requires !e.Call? ==> WellFormed(e.code) && |e.code| < |s.code|
    ensures WellFormed(Perform(s, e, i).job.prog)
    ensures Perform(s, e, i).active ==> WellFormed(Perform(s, e, i).code) && |Perform(s, e, i).code| <= |s.job.prog|
    ensures JustWaits(s, e, i) ==> Measure(Perform(s, e, i)) == Measure(s)
    ensures !JustWaits(s, e, i) ==> Measure(Perform(s, e, i)) < Measure(s)
    ensures Perform(s, e, i).retry == s.retry || Perform(s, e, i).retry == s.retry - 1
    ensures |Perform(s, e, i).calls| == |s.calls| + (if Perform(s, e, i).active then 0 else 1)
    ensures Perform(s, e, i).job == s.job
  {
    if e.Call? && !(e.value == -1 && s.retry > 0) {
      CallbackCases(s.(regs := e.regs), e.value, i.now);
    }
  }

  /** How many steps of a run did not just wait. */
  function Busy(s: State, inputs: seq<Input>): nat {
    if inputs == [] then 0
    else
      var n := |inputs| - 1;
      Busy(s, inputs[..n]) + (if Waits(Run(s, inputs[..n]), inputs[n]) then 0 else 1)
  }

  /** How many times a run went back to the start of the program. */
  function Restarts(s: State, inputs: seq<Input>): nat {
    if inputs == [] then 0
    else
      var n := |inputs| - 1;
      var before := Run(s, inputs[..n]);
      Restarts(s, inputs[..n]) + (if Step(before, inputs[n]).retry < before.retry then 1 else 0)
  }

  /** Main result: the pointer stays in the program, there are at most `retry` more attempts, no run
      makes more than Measure(s) moves, and one that makes that many has called back exactly once. */
  lemma {:induction false} RunsEnd(s: State, inputs: seq<Input>)
    requires s.active && InProgram(s)
    ensures InProgram(Run(s, inputs))
    ensures Busy(s, inputs) + Measure(Run(s, inputs)) <= Measure(s)
    ensures Restarts(s, inputs) + Run(s, inputs).retry == s.retry
    ensures |Run(s, inputs).calls| == |s.calls| + (if Run(s, inputs).active then 0 else 1)
    ensures Busy(s, inputs) >= Measure(s) ==> !Run(s, inputs).active
    decreases |inputs|
  {
    if inputs != [] {
      var n := |inputs| - 1;
      RunsEnd(s, inputs[..n]);
      var before := Run(s, inputs[..n]);
      if before.active {
        DecodeKeepsWellFormed(before.code, before.regs);
        PerformMakesProgress(before, Decode(before.code, before.regs), inputs[n]);
      }
    }
  }

  // ---------- What an opcode waits for ----------

  /** A packet goes out at the first turn at which the reset packets before it have been seen, and not before. */
  lemma PacketsWaitForResets(s: State, i: Input)
    requires s.active && s.code != [] && W0 <= s.code[0] <= V1
    ensures !i.resetsSeen ==> Step(s, i) == s
    ensures i.resetsSeen ==>
      && Step(s, i).code == s.code[1..] && Step(s, i).sent == s.sent + [PacketOf(s.code[0], s.regs)]
      && Step(s, i).regs == s.regs && Step(s, i).calls == s.calls && Step(s, i).active
  {
  }

  /** An attempt begins at the first turn at which the track is not overloaded and the resets have been seen, an
      ack is taken at the first turn at which there is one or none will come, and neither is before. */
  lemma BaselineAndAckWait(s: State, i: Input)
    requires s.active && s.code != [] && s.code[0] in {BASELINE, WACK}
    ensures Step(s, i).sent == s.sent && Step(s, i).calls == s.calls && Step(s, i).active
    ensures Step(s, i).code == s.code[1..] || Step(s, i) == s
    ensures s.code[0] == BASELINE ==> (Step(s, i) != s <==> i.resetsSeen && !i.overload)
    ensures s.code[0] == WACK ==> (Step(s, i) != s <==> i.poll != Pending)
    ensures s.code[0] == WACK && i.poll != Pending ==> Step(s, i).regs == s.regs.(ack := i.poll == Ack)
  {
    assert |s.code[1..]| != |s.code|;
  }

  /** How many turns of a run have seen the resets. */
  function ResetsSeen(inputs: seq<Input>): nat {
    if inputs == [] then 0
    else ResetsSeen(inputs[..|inputs| - 1]) + if inputs[|inputs| - 1].resetsSeen then 1 else 0
  }

  /** In any run, every packet is sent at a turn of its own that has seen the resets. */
  lemma {:induction false} OnePacketForEachReset(s: State, inputs: seq<Input>)
    ensures |Run(s, inputs).sent| <= |s.sent| + ResetsSeen(inputs)
    ensures s.sent <= Run(s, inputs).sent
    decreases |inputs|
  {
    if inputs != [] {
      var n := |inputs| - 1;
      OnePacketForEachReset(s, inputs[..n]);
      OnlySendsSend(Run(s, inputs[..n]), inputs[n]);
    }
  }

  lemma OnlySendsSend(s: State, i: Input)
    ensures Step(s, i).sent == s.sent || (i.resetsSeen && exists p :: Step(s, i).sent == s.sent + [p])
  {
    if s.active && s.code != [] && W0 <= s.code[0] <= V1 {
      PacketsWaitForResets(s, i);
    }
  }

  // ---------- Retries ----------

  /** A failed attempt is followed by another one from the start of the program as long as there are retries, and
      nothing is called back. */
  lemma FailureIsRetried(s: State, i: Input)
    requires s.active && s.code != [] && s.retry > 0
    requires s.code[0] == CALLFAIL || (s.code[0] == NAKFAIL && !s.regs.ack)
    ensures Step(s, i) == s.(retry := s.retry - 1, code := s.job.prog)
  {
  }

  /** No opcode calls back a number that is -1 in 16 bits, but -1. */
  lemma OnlyFailureIsMinusOne(code: seq<byte>, r: Regs)
    requires Decode(code, r).Call?
    ensures ToInt16(Decode(code, r).value) == -1 <==> Decode(code, r).value == -1
  {
    var v := Decode(code, r).value;
    assert -0xC000 <= v < 0x1_0000 - 1;
  }

  lemma StepCallsOnce(s: State, i: Input)
    requires s.active && s.calls == []
    ensures var t := Step(s, i);
      if t.active then t.calls == [] else |t.calls| == 1 && (t.calls[0] == -1 ==> t.retry == 0)
  {
    var e := Decode(s.code, s.regs);
    if e.Call? {
      OnlyFailureIsMinusOne(s.code, s.regs);
      hide Decode, ToInt16, Wind;
      assert Step(s, i) == Callback(s.(regs := e.regs), e.value, i.now);
    } else {
      hide Decode, ToInt16, Wind;
    }
  }

  /** Main result: over any run, the caller hears of a failure only when all retries have been used. */
  lemma {:induction false} FailureIsFinal(s: State, inputs: seq<Input>)
    requires s.active && s.calls == []
    ensures var t := Run(s, inputs);
      if t.active then t.calls == [] else |t.calls| == 1 && (t.calls[0] == -1 ==> t.retry == 0)
    decreases |inputs|
  {
    if inputs != [] {
      hide Step;
      var before := Run(s, inputs[..|inputs| - 1]);
      FailureIsFinal(s, inputs[..|inputs| - 1]);
      if before.active {
        StepCallsOnce(before, inputs[|inputs| - 1]);
      } else {
        DoneIsDone(before, inputs[|inputs| - 1]);
      }
    }
  }

  lemma DoneIsDone(s: State, i: Input)
    requires !s.active
    ensures Step(s, i) == s
  {
  }
}

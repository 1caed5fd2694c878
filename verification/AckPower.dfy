/** The power rules that DCCACK::callback states for leaving programming mode. */
module AckPower {
  import opened Bytes
  import opened AckVm
  import opened AckLogic

  /** The programming track switched off or on, with the write or the switching off before that. */
  datatype Note = SwitchedOff(wrote: seq<nat>, at: nat) | SwitchedOn(off: nat, at: nat)

  /** A run under observation: has this attempt passed its BASELINE, when did it last write since then,
      when was the track last switched off. */
  datatype Watch = Watch(s: State, based: bool, wrote: seq<nat>, off: nat, time: nat, log: seq<Note>)

  function Next(w: Watch, i: Input): Watch {
    var t, e := Step(w.s, i), Decode(w.s.code, w.s.regs);
    var acts := w.s.active && !Returns(e, i);
    Watch(t,
          (w.based || (acts && e.Baseline?)) && t.retry == w.s.retry,
          if acts && e.Baseline? then [] else if acts && e.Send? && IsWrite(e.op) then [i.now] else w.wrote,
          if w.s.power.on && !t.power.on then i.now else w.off,
          i.now,
          w.log + (if w.s.power.on && !t.power.on then [SwitchedOff(w.wrote, i.now)]
                   else if !w.s.power.on && t.power.on then [SwitchedOn(w.off, i.now)]
                   else []))
  }

  function Watched(s: State, inputs: seq<Input>): Watch {
    if inputs == [] then Watch(s, false, [], 0, 0, [])
    else Next(Watched(s, inputs[..|inputs| - 1]), inputs[|inputs| - 1])
  }

  predicate ByTheRules(n: Note) {
    match n
    case SwitchedOff(wrote, at) => wrote != [] ==> at >= wrote[0] + 100
    case SwitchedOn(off, at) => at >= off + 30
  }

  // ---------- What every run keeps ----------

  predicate Leaving(s: State) {
    var e := Decode(s.code, s.regs);
    e.Call? && !(e.value == -1 && s.retry > 0)
  }

  /** Off and on again, and nothing else. */
  predicate Cycled(log: seq<Note>) {
    |log| == 2 && log[0].SwitchedOff? && log[1].SwitchedOn?
  }

  /** Off, and nothing else. */
  predicate CutOff(log: seq<Note>) {
    |log| == 1 && log[0].SwitchedOff?
  }

  predicate PhaseFits(w: Watch) {
    var p, j := w.s.power, w.s.job;
    && p.on == (p.phase != WAITING_30)
    && match p.phase
       case AFTER_READ => w.wrote == [] && w.log == []
       case AFTER_WRITE => w.wrote != [] && w.log == []
       case WAITING_100 => Leaving(w.s) && w.log == [] && w.wrote != [] && w.wrote[0] <= p.start <= w.time
         && (j.rejoin || j.autoPowerOff)
       case WAITING_30 => Leaving(w.s) && CutOff(w.log) && w.off == p.start <= w.time && j.rejoin && !j.autoPowerOff
       case READY =>
         && Leaving(w.s)
         && (w.wrote != [] && j.autoPowerOff ==> w.time >= w.wrote[0] + 100)
         && (if j.rejoin && !j.autoPowerOff then Cycled(w.log) else w.log == [])
  }

  /** What has been switched when a job is done. */
  predicate Switching(j: Job, log: seq<Note>) {
    if j.autoPowerOff then CutOff(log) else if j.rejoin then Cycled(log) else log == []
  }

  predicate Kept(w: Watch) {
    && (forall k | 0 <= k < |w.log| :: ByTheRules(w.log[k]))
    && (w.wrote != [] ==> w.wrote[0] <= w.time)
    && w.s.job.prog != [] && w.s.job.prog[0] == BASELINE
    && (w.s.active ==> !w.s.power.joined)
    && (w.s.active && !w.based ==> w.s.code == w.s.job.prog && w.s.power.on && w.log == [])
    && (w.s.active && w.based ==> PhaseFits(w))
    && (!w.s.active ==> && w.s.power.on == !w.s.job.autoPowerOff
                        && w.s.power.joined == w.s.job.rejoin
                        && Switching(w.s.job, w.log))
  }

  lemma BaselineIsNoCall(code: seq<byte>, r: Regs)
    requires code != [] && code[0] == BASELINE
    ensures !Decode(code, r).Call?
  {
  }

  /** A call that neither fails nor retries moves the power sequence on, and stays on its opcode. */
  lemma CallMovesPower(w: Watch, i: Input)
    requires w.s.active && Decode(w.s.code, w.s.regs).Call?
    ensures var e := Decode(w.s.code, w.s.regs);
      var t := Next(w, i);
      && t.s == Callback(w.s.(regs := e.regs), e.value, i.now)
      && Decode(w.s.code, e.regs) == e && t.wrote == w.wrote && t.based == (w.based && t.s.retry == w.s.retry)
  {
    CallIsStable(w.s.code, w.s.regs);
  }

  lemma LogKeeps(log: seq<Note>, n: Note)
    requires (forall k | 0 <= k < |log| :: ByTheRules(log[k])) && ByTheRules(n)
    ensures forall k | 0 <= k < |log + [n]| :: ByTheRules((log + [n])[k])
    ensures Cycled(log + [n]) <==> CutOff(log) && n.SwitchedOn?
    ensures CutOff(log + [n]) <==> log == [] && n.SwitchedOff?
  {
  }

  lemma CallKeeps(w: Watch, i: Input)
    requires Kept(w) && w.s.active && Decode(w.s.code, w.s.regs).Call? && w.time <= i.now
    ensures Kept(Next(w, i))
  {
    if !w.based {
      BaselineIsNoCall(w.s.code, w.s.regs);
    }
    CallMovesPower(w, i);
    var t := Next(w, i);
    hide Decode, ByTheRules, Cycled, CutOff;
    if w.s.power.on && !t.s.power.on {
      SwitchesOff(w, i);
      LogKeeps(w.log, SwitchedOff(w.wrote, i.now));
    } else if !w.s.power.on && t.s.power.on {
      SwitchesOn(w, i);
      LogKeeps(w.log, SwitchedOn(w.off, i.now));
    }
  }

  lemma SwitchesOff(w: Watch, i: Input)
    requires Kept(w) && w.s.active && w.based && Decode(w.s.code, w.s.regs).Call? && w.time <= i.now
    requires w.s.power.on && !Next(w, i).s.power.on
    ensures ByTheRules(SwitchedOff(w.wrote, i.now))
  {
    CallMovesPower(w, i);
    hide Decode;
  }

  lemma SwitchesOn(w: Watch, i: Input)
    requires Kept(w) && w.s.active && w.based && Decode(w.s.code, w.s.regs).Call? && w.time <= i.now
    requires !w.s.power.on && Next(w, i).s.power.on
    ensures ByTheRules(SwitchedOn(w.off, i.now))
  {
    CallMovesPower(w, i);
    hide Decode;
  }

  /** Opcodes that call nobody switch nothing. */
  lemma OtherSwitchesNothing(w: Watch, i: Input)
    requires w.s.active && !Decode(w.s.code, w.s.regs).Call?
    ensures Next(w, i).log == w.log && Next(w, i).off == w.off && Next(w, i).s.active
    ensures Next(w, i).s.power.on == w.s.power.on && Next(w, i).s.power.joined == w.s.power.joined
  {
    hide Decode;
  }

  lemma OtherKeeps(w: Watch, i: Input)
    requires Kept(w) && w.s.active && !Decode(w.s.code, w.s.regs).Call? && w.time <= i.now
    ensures Kept(Next(w, i))
  {
    OtherSwitchesNothing(w, i);
    hide ByTheRules, Cycled, CutOff, Switching;
  }

  predicate InOrder(inputs: seq<Input>) {
    forall i, j | 0 <= i < j < |inputs| :: inputs[i].now <= inputs[j].now
  }

  predicate SetUp(s: State) {
    s.active && s.code == s.job.prog && s.code != [] && s.code[0] == BASELINE && s.power.on
    && !s.power.joined
  }

  lemma {:induction false} RunsKeep(s: State, inputs: seq<Input>)
    requires SetUp(s) && InOrder(inputs)
    ensures var w := Watched(s, inputs);
      && w.s == Run(s, inputs) && w.s.job == s.job && Kept(w)
      && w.time == if inputs == [] then 0 else inputs[|inputs| - 1].now
    decreases |inputs|
  {
    if inputs != [] {
      hide Kept, Decode, Step;
      var before := inputs[..|inputs| - 1];
      assert before != [] ==> before[|before| - 1] == inputs[|inputs| - 2];
      RunsKeep(s, before);
      var w, i := Watched(s, before), inputs[|inputs| - 1];
      StepKeepsJob(w.s, i);
      if !w.s.active {
        IdleKeeps(w, i);
      } else if Decode(w.s.code, w.s.regs).Call? {
        CallKeeps(w, i);
      } else {
        OtherKeeps(w, i);
      }
    }
  }

  lemma StepKeepsJob(s: State, i: Input)
    ensures Step(s, i).job == s.job
  {
  }

  lemma IdleKeeps(w: Watch, i: Input)
    requires Kept(w) && !w.s.active && w.time <= i.now
    ensures Kept(Next(w, i))
  {
  }

  /** Main result: in any run from Setup on, the track is never switched off within 100 ms of a write of the
      same attempt, and is off for at least 30 ms before it is switched on again; when the callback is made
      the track is as Setup found it, and if it then carries power to the main track, it has been off
      like that. */
  lemma PowerRules(s: State, inputs: seq<Input>)
    requires SetUp(s) && InOrder(inputs)
    ensures var w := Watched(s, inputs);
      && w.s == Run(s, inputs)
      && (forall k | 0 <= k < |w.log| :: ByTheRules(w.log[k]))
      && (!w.s.active ==>
            && w.s.power.on == !s.job.autoPowerOff && w.s.power.joined == s.job.rejoin
            && (if s.job.autoPowerOff then |w.log| == 1 && w.log[0].SwitchedOff?
                else if s.job.rejoin then |w.log| == 2 && w.log[0].SwitchedOff? && w.log[1].SwitchedOn?
                else w.log == []))
  {
    RunsKeep(s, inputs);
  }
}

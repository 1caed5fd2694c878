/** The service-mode interpreter of DCCACK.cpp as a state machine: one step is one
    turn of the `while (ackManagerProg)` loop.  The program pointer is modelled by
    the bytes that are still in front of it. */
module AckVm {
  import opened Bytes

  // ---------- Opcodes: the enum ackOp ----------

  const BASELINE: byte := 0
  const W0: byte := 1
  const W1: byte := 2
  const WB: byte := 3
  const VB: byte := 4
  const V0: byte := 5
  const V1: byte := 6
  const WACK: byte := 7
  const ITC1: byte := 8
  const ITC0: byte := 9
  const ITCB: byte := 10
  const ITCBV: byte := 11
  const ITCB7: byte := 12
  const NAKFAIL: byte := 13
  const CALLFAIL: byte := 14
  const BIV: byte := 15
  const STARTMERGE: byte := 16
  const MERGE: byte := 17
  const SETBIT: byte := 18
  const SETCV: byte := 19
  const SETBYTE: byte := 20
  const SETBYTEH: byte := 21
  const SETBYTEL: byte := 22
  const STASHLOCOID: byte := 23
  const COMBINELOCOID: byte := 24
  const ITSKIP: byte := 25
  const NAKSKIP: byte := 26
  const COMBINE1920: byte := 27
  const BAD20SKIP: byte := 28
  const FAIL_IF_NONZERO_NAK: byte := 29
  const SKIPTARGET: byte := 0xFF

  const LONG_ADDR_MARKER: int := 0x4000

  // ---------- Programming track packets ----------

  const WRITE_BYTE: byte := 0x7C
  const VERIFY_BYTE: byte := 0x74
  const BIT_MANIPULATE: byte := 0x78
  const WRITE_BIT: byte := 0xF0
  const VERIFY_BIT: byte := 0xE0
  const BIT_ON: byte := 0x08
  const BIT_OFF: byte := 0x00

  datatype Packet = Packet(first: byte, second: byte, third: byte)

  /** First packet byte: the opcode with the top two bits of the CV address. */
  function Cv1(opcode: byte, cv: int): nat {
    Or(HighByte(cv - 1) % 4, opcode)
  }

  function Cv2(cv: int): byte {
    LowByte(cv - 1)
  }

  /** A three byte service-mode message; `Or` of bytes is cut to a byte as the C++ array does. */
  function Message(opcode: byte, cv: int, data: nat): Packet {
    Packet(LowByte(Cv1(opcode, cv)), Cv2(cv), LowByte(data))
  }

  function BitInstruction(operation: byte, value: byte, bitNum: byte): nat {
    Or(Or(operation, value), bitNum)
  }

  // ---------- The interpreter's registers ----------

  /** The ackManager* fields that opcodes read and write. */
  datatype Regs = Regs(value: byte, verify: byte, stash: byte, word: int, cv: int, bit: byte, ack: bool)

  /** `LONG_ADDR_MARKER | n` on a two's complement int. */
  function MarkLong(n: int): int {
    if (n / LONG_ADDR_MARKER) % 2 == 0 then n + LONG_ADDR_MARKER else n
  }

  /** What one opcode asks for.  `Call` stays on its entry; the others move on to `code`. */
  datatype Effect =
    | Next(code: seq<byte>, regs: Regs)
    | Baseline(code: seq<byte>)
    | Send(op: byte, code: seq<byte>)
    | Await(code: seq<byte>)
    | Call(value: int, regs: Regs)
    | RanOff

  /** The program after the next SKIPTARGET byte, as the skip loops look for it. */
  function AfterTarget(code: seq<byte>): (r: seq<byte>)
    ensures |r| <= |code|
    ensures code != [] ==> |r| < |code|
  {
    if code == [] then []
    else if code[0] == SKIPTARGET then code[1..]
    else AfterTarget(code[1..])
  }

  function SkipIf(condition: bool, code: seq<byte>, r: Regs): Effect {
    if !condition then Next(code, r)
    else if SKIPTARGET in code then Next(AfterTarget(code), r)
    else RanOff
  }

  function CallIf(condition: bool, value: int, code: seq<byte>, r: Regs): Effect {
    if condition then Call(value, r) else Next(code, r)
  }

  /** The packet of one of the sending opcodes W0, W1, WB, VB, V0 and V1. */
  function PacketOf(op: byte, r: Regs): Packet {
    if op == WB then Message(WRITE_BYTE, r.cv, r.value)
    else if op == VB then Message(VERIFY_BYTE, r.cv, r.value)
    else Message(BIT_MANIPULATE, r.cv,
                 BitInstruction(if op == W0 || op == W1 then WRITE_BIT else VERIFY_BIT,
                                if op == W1 || op == V1 then BIT_ON else BIT_OFF, r.bit))
  }

  predicate IsWrite(op: byte) {
    op == W0 || op == W1 || op == WB
  }

  function Combine1920(r: Regs): Effect {
    var v := r.value % 128 % 100;
    Call(r.stash * 100 + v, r.(value := v))
  }

  function Merged(r: Regs): Regs {
    r.(value := (2 * r.value) % 256 + (if r.ack then 0 else 1), bit := (r.bit - 1) % 256)
  }

  /** One pass through the switch of DCCACK::loop. */
  function Decode(code: seq<byte>, r: Regs): Effect {
    if code == [] then RanOff else
    var op := code[0];
    var rest := code[1..];
    if op == BASELINE then Baseline(rest)
    else if W0 <= op <= V1 then Send(op, rest)
    else if op == WACK then Await(rest)
    else if op == ITC0 then CallIf(r.ack, 0, rest, r)
    else if op == ITC1 then CallIf(r.ack, 1, rest, r)
    else if op == ITCB || op == ITCBV then CallIf(r.ack, r.value, rest, r)
    else if op == ITCB7 then CallIf(r.ack, r.value % 128, rest, r)
    else if op == NAKFAIL then CallIf(!r.ack, -1, rest, r)
    else if op == CALLFAIL then Call(-1, r)
    else if op == BIV then Next(rest, r.(value := r.verify))
    else if op == STARTMERGE then Next(rest, r.(bit := 7, value := 0))
    else if op == MERGE then Next(rest, Merged(r))
    else if op == SETBIT then (if rest == [] then RanOff else Next(rest[1..], r.(bit := rest[0])))
    else if op == SETCV then (if rest == [] then RanOff else Next(rest[1..], r.(cv := rest[0])))
    else if op == SETBYTE then (if rest == [] then RanOff else Next(rest[1..], r.(value := rest[0])))
    else if op == SETBYTEH then Next(rest, r.(value := HighByte(r.word)))
    else if op == SETBYTEL then Next(rest, r.(value := LowByte(r.word)))
    else if op == STASHLOCOID then Next(rest, r.(stash := r.value))
    else if op == COMBINELOCOID then Call(MarkLong(r.value + (r.stash - 192) * 256), r)
    else if op == COMBINE1920 then Combine1920(r)
    else if op == ITSKIP then SkipIf(r.ack, rest, r)
    else if op == NAKSKIP then SkipIf(!r.ack, rest, r)
    else if op == BAD20SKIP then SkipIf(r.value > 120, rest, r)
    else if op == FAIL_IF_NONZERO_NAK then CallIf(r.value != 0, -4, rest, r)
    else if op == SKIPTARGET then Next(rest, r)
    else Call(-1, r)
  }

  // ---------- The machine ----------

  datatype CallbackState = AFTER_READ | AFTER_WRITE | WAITING_100 | WAITING_30 | READY

  datatype Poll = Pending | Nack | Ack

  /** What one opcode sees of the outside world: has the reset counter come up, is the
      track overloaded, what does getAck() say, what is the time. */
  datatype Input = Input(resetsSeen: bool, overload: bool, poll: Poll, now: nat)

  /** What DCCACK::Setup fixes: the program, whether to join the tracks again, whether to power off. */
  datatype Job = Job(prog: seq<byte>, rejoin: bool, autoPowerOff: bool)

  /** callbackState, callbackStart, and the programming track's power and join flags. */
  datatype Power = Power(phase: CallbackState, start: nat, on: bool, joined: bool)

  datatype State = State(
    job: Job,
    code: seq<byte>,          // what ackManagerProg points at
    active: bool,             // ackManagerProg != NULL
    regs: Regs,
    retry: nat,               // ackManagerRetry
    power: Power,
    sent: seq<Packet>,        // packets given to the waveform generator
    calls: seq<int>)          // values given to the user callback

  function PowerOffFor30(p: Power, now: nat): Power {
    p.(on := false, start := now, phase := WAITING_30)
  }

  /** The power sequence of DCCACK::callback on its way to READY. */
  function Wind(p: Power, j: Job, now: nat): Power {
    match p.phase
    case AFTER_READ =>
      if j.rejoin && !j.autoPowerOff then PowerOffFor30(p, now) else p.(phase := READY)
    case AFTER_WRITE =>
      if !j.rejoin && !j.autoPowerOff then p.(phase := READY) else p.(phase := WAITING_100, start := now)
    case WAITING_100 =>
      if Elapsed(now, p.start) < 100 then p
      else if j.autoPowerOff then p.(phase := READY)
      else PowerOffFor30(p, now)
    case WAITING_30 =>
      if Elapsed(now, p.start) < 30 then p else p.(on := true, phase := READY)
    case READY => p.(on := p.on && !j.autoPowerOff, joined := p.joined || j.rejoin)
  }

  /** DCCACK::callback */
  function Callback(s: State, value: int, now: nat): State {
    if value == -1 && s.retry > 0 then
      s.(retry := s.retry - 1, code := s.job.prog)
    else if s.power.phase == READY then
      s.(power := Wind(s.power, s.job, now), active := false, calls := s.calls + [ToInt16(value)])
    else
      s.(power := Wind(s.power, s.job, now))
  }

  /** The cases in which the switch returns instead of breaking. */
  predicate Returns(e: Effect, i: Input) {
    match e
    case Baseline(_) => i.overload || !i.resetsSeen
    case Send(_, _) => !i.resetsSeen
    case Await(_) => i.poll == Pending
    case Call(_, _) => true
    case _ => false
  }

  predicate Yields(s: State, i: Input) {
    Returns(Decode(s.code, s.regs), i)
  }

  function Perform(s: State, e: Effect, i: Input): State {
    match e
    case Next(code, regs) => s.(code := code, regs := regs)
    case Baseline(code) =>
      if Returns(e, i) then s else s.(code := code, power := s.power.(phase := AFTER_READ))
    case Send(op, code) =>
      if Returns(e, i) then s
      else s.(code := code, sent := s.sent + [PacketOf(op, s.regs)],
              power := if IsWrite(op) then s.power.(phase := AFTER_WRITE) else s.power)
    case Await(code) =>
      if Returns(e, i) then s else s.(code := code, regs := s.regs.(ack := i.poll == Ack))
    case Call(value, regs) => Callback(s.(regs := regs), value, i.now)
    case RanOff => s
  }

  /** One turn of the loop in DCCACK::loop. */
  function Step(s: State, i: Input): State {
    if s.active then Perform(s, Decode(s.code, s.regs), i) else s
  }

  function Run(s: State, inputs: seq<Input>): State {
    if inputs == [] then s
    else Step(Run(s, inputs[..|inputs| - 1]), inputs[|inputs| - 1])
  }
}

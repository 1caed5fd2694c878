/** The two packet queues of DCCQueue.cpp as sequences, and what every run of requests and
    dequeues keeps.  The class that does this with linked slots is in PacketScheduler. */
module PacketQueue {
  import opened Bytes

  const MAX_PACKET_SIZE: nat := 5
  const IDLE: seq<byte> := [0xFF, 0x00]

  datatype Kind = NORMAL | FUNCTION(group: nat) | SPEED | ACC_ON | ACC_OFF

  /** A PendingSlot.  locoId and delayOff are the low half of `word`, startTime is all of it, as in the
      C++ union.  `tag` numbers the requests, so that one can be followed through a run. */
  datatype Entry = Entry(kind: Kind, packet: seq<byte>, repeats: nat, word: nat, tag: nat) {
    function LocoId(): nat {
      word % 0x1_0000
    }
  }

  /** A packet handed to the waveform generator, which transmits it `repeats` + 1 times. */
  datatype Sent = Sent(packet: seq<byte>, repeats: nat, loco: nat, tag: int, off: bool, now: nat)

  datatype Queues = Queues(high: seq<Entry>, low: seq<Entry>, last: nat, next: nat, log: seq<Sent>)

  const EMPTY: Queues := Queues([], [], 0, 0, [])

  // ---------- Requests ----------

  /** Index of the first entry for this loco, or the length. */
  function FindLoco(q: seq<Entry>, loco: nat): (i: nat)
    ensures i <= |q|
    ensures forall k | 0 <= k < i :: q[k].LocoId() != loco
    ensures i < |q| ==> q[i].LocoId() == loco
  {
    if q == [] then 0 else if q[0].LocoId() == loco then 0 else 1 + FindLoco(q[1..], loco)
  }

  function FindFunction(q: seq<Entry>, loco: nat, group: nat): (i: nat)
    ensures i <= |q|
    ensures forall k | 0 <= k < i :: !(q[k].LocoId() == loco && q[k].kind == FUNCTION(group))
    ensures i < |q| ==> q[i].LocoId() == loco && q[i].kind == FUNCTION(group)
  {
    if q == [] then 0
    else if q[0].LocoId() == loco && q[0].kind == FUNCTION(group) then 0
    else 1 + FindFunction(q[1..], loco, group)
  }

  function SchedulePacket(q: Queues, packet: seq<byte>, repeats: nat, loco: nat): Queues {
    q.(low := q.low + [Entry(NORMAL, packet, repeats, loco, q.next)], next := q.next + 1)
  }

  function ScheduleSpeed(q: Queues, packet: seq<byte>, repeats: nat, loco: nat): Queues {
    var i := FindLoco(q.high, loco);
    if i < |q.high| then
      q.(high := q.high[i := q.high[i].(packet := packet, repeats := repeats, tag := q.next)], next := q.next + 1)
    else
      q.(high := q.high + [Entry(SPEED, packet, repeats, loco, q.next)], next := q.next + 1)
  }

  function ScheduleFunction(q: Queues, packet: seq<byte>, loco: nat, group: nat): Queues {
    if !(1 <= group <= 5) then q
    else
      var i := FindFunction(q.low, loco, group);
      if i < |q.low| then
        q.(low := q.low[i := q.low[i].(packet := packet, repeats := 0, tag := q.next)], next := q.next + 1)
      else
        q.(low := q.low + [Entry(FUNCTION(group), packet, 0, loco, q.next)], next := q.next + 1)
  }

  /** Does an emergency stop for `loco` (0 for all) discard this entry of the high queue? */
  predicate Stopped(e: Entry, loco: nat) {
    e.kind != ACC_OFF && (loco == 0 || e.LocoId() == loco)
  }

  function Survivors(q: seq<Entry>, loco: nat): seq<Entry> {
    if q == [] then []
    else (if Stopped(q[0], loco) then [] else [q[0]]) + Survivors(q[1..], loco)
  }

  function ScheduleEstop(q: Queues, packet: seq<byte>, repeats: nat, loco: nat): Queues {
    q.(high := [Entry(SPEED, packet, repeats, 0, q.next)] + Survivors(q.high, loco), next := q.next + 1)
  }

  /** `delay` goes into the 16 bits that LocoId reads. */
  function ScheduleAccessory(q: Queues, packet: seq<byte>, repeats: nat, delay: int): Queues {
    q.(low := q.low + [Entry(ACC_ON, packet, repeats, delay % 0x1_0000, q.next)], next := q.next + 1)
  }

  // ---------- Dequeuing ----------

  predicate Sendable(e: Entry, now: nat, last: nat) {
    && !(e.kind == ACC_OFF && now < e.word)
    && !(e.LocoId() != 0 && e.LocoId() == last)
  }

  /** Index of the first entry that may be sent, or the length. */
  function FindSendable(q: seq<Entry>, now: nat, last: nat): (i: nat)
    ensures i <= |q|
    ensures forall k | 0 <= k < i :: !Sendable(q[k], now, last)
    ensures i < |q| ==> Sendable(q[i], now, last)
  {
    if q == [] then 0 else if Sendable(q[0], now, last) then 0 else 1 + FindSendable(q[1..], now, last)
  }

  function Without(q: seq<Entry>, i: nat): seq<Entry>
    requires i < |q|
  {
    q[..i] + q[i + 1..]
  }

  /** packet[1] &= ~0x08 */
  function GateOff(packet: seq<byte>): seq<byte> {
    if |packet| >= 2 && Bit(packet[1], 3) then
      ClearGate(packet[1]);
      packet[1 := packet[1] - 8]
    else packet
  }

  lemma ClearGate(b: byte)
    requires Bit(b, 3)
    ensures b >= 8
  {
    if b < 8 {
      assert Pow2(3) == 8;
      ShrToNothing(b, 3);
    }
  }

  /** How an accessory request goes on: gate off, to be sent when the delay is over. */
  function OffEntry(e: Entry, now: nat): Entry {
    e.(kind := ACC_OFF, packet := GateOff(e.packet), word := (now + e.LocoId()) % 0x1_0000_0000)
  }

  /** What is transmitted for an entry: a loco packet once, others with all their repeats. */
  function Transmission(e: Entry, now: nat): Sent {
    Sent(e.packet, if e.LocoId() != 0 then 0 else e.repeats, e.LocoId(), e.tag, e.kind == ACC_OFF, now)
  }

  predicate Stays(e: Entry) {
    e.LocoId() != 0 && e.repeats > 0
  }

  /** The entry at index `i` of a queue has been sent: the queue after it. */
  function Drained(q: seq<Entry>, i: nat): seq<Entry>
    requires i < |q|
  {
    if Stays(q[i]) then q[i := q[i].(repeats := q[i].repeats - 1)] else Without(q, i)
  }

  function Jumped(e: Entry, now: nat): seq<Entry> {
    if e.kind == ACC_ON && !Stays(e) then [OffEntry(e, now)] else []
  }

  /** The waveform generator refuses packets that are too long. */
  function Logged(log: seq<Sent>, s: Sent): seq<Sent> {
    if |s.packet| <= MAX_PACKET_SIZE then log + [s] else log
  }

  function SendHigh(q: Queues, i: nat, now: nat): Queues
    requires i < |q.high|
  {
    var e := q.high[i];
    q.(high := Jumped(e, now) + Drained(q.high, i), last := e.LocoId(), log := Logged(q.log, Transmission(e, now)))
  }

  function SendLow(q: Queues, i: nat, now: nat): Queues
    requires i < |q.low|
  {
    var e := q.low[i];
    q.(high := Jumped(e, now) + q.high, low := Drained(q.low, i), last := e.LocoId(),
       log := Logged(q.log, Transmission(e, now)))
  }

  /** DCCQueue::scheduleNext; it returns false exactly when it changes nothing. */
  function ScheduleNext(q: Queues, force: bool, now: nat): Queues {
    var i := FindSendable(q.high, now, q.last);
    if i < |q.high| then SendHigh(q, i, now)
    else
      var j := FindSendable(q.low, now, q.last);
      if j < |q.low| then SendLow(q, j, now)
      else if force then q.(last := 0, log := q.log + [Sent(IDLE, 0, 0, -1, false, now)])
      else q
  }

  // ---------- Runs ----------

  datatype Op =
    | Packet(packet: seq<byte>, repeats: nat, loco: nat)
    | Speed(packet: seq<byte>, repeats: nat, loco: nat)
    | Function(packet: seq<byte>, loco: nat, group: nat)
    | Estop(packet: seq<byte>, repeats: nat, loco: nat)
    | Accessory(packet: seq<byte>, repeats: nat, delay: int)
    | Next(force: bool, now: nat)

  /** Loco ids are uint16_t. */
  predicate Typed(op: Op) {
    match op
    case Packet(_, _, loco) => loco < 0x1_0000
    case Speed(_, _, loco) => loco < 0x1_0000
    case Function(_, loco, _) => loco < 0x1_0000
    case Estop(_, _, loco) => loco < 0x1_0000
    case _ => true
  }

  function Apply(q: Queues, op: Op): Queues {
    match op
    case Packet(packet, repeats, loco) => SchedulePacket(q, packet, repeats, loco)
    case Speed(packet, repeats, loco) => ScheduleSpeed(q, packet, repeats, loco)
    case Function(packet, loco, group) => ScheduleFunction(q, packet, loco, group)
    case Estop(packet, repeats, loco) => ScheduleEstop(q, packet, repeats, loco)
    case Accessory(packet, repeats, delay) => ScheduleAccessory(q, packet, repeats, delay)
    case Next(force, now) => ScheduleNext(q, force, now)
  }

  function Run(q: Queues, ops: seq<Op>): Queues {
    if ops == [] then q else Apply(Run(q, ops[..|ops| - 1]), ops[|ops| - 1])
  }
}

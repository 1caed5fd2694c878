/** The emergency stop lock of DCC.cpp over the packet queues. */
module EstopLock {
  import opened Bytes
  import opened PacketQueue
  import opened PacketRules
  import opened DccPackets

  /** The queues, DCC::estopIsLocked and DCC::globalSpeedsteps. */
  datatype Station = Station(q: Queues, locked: bool, steps: byte)

  /** DCC::setThrottleDCC: for a slot with its loco id and reverse flag, or with cab 0 for none. */
  function Throttle(s: Station, cab: uint16, reversed: bool, speedCode: byte): Station {
    var flipped := if reversed then (speedCode + 128) % 256 else speedCode;
    var code := if s.locked then flipped / 128 * 128 + 1 else flipped;
    var packet := SpeedPacket(cab, code, s.steps);
    s.(q := if code % 128 == 1 then ScheduleEstop(s.q, packet, 4, cab) else ScheduleSpeed(s.q, packet, 0, cab))
  }

  /** DCC::estopLock */
  function Lock(s: Station, lock: bool): Station {
    if s.locked == lock then s
    else
      var t := s.(locked := lock);
      if lock then Throttle(t, 0, false, 1) else t
  }

  /** Everything that reaches the queues: throttle traffic of any origin (throttles, reminders, momentum,
      forgotten locos, estopAll), and the other requests and dequeues. */
  datatype Act = Drive(cab: uint16, reversed: bool, speedCode: byte) | Locking(lock: bool) | Other(op: Op)

  function Do(s: Station, a: Act): Station {
    match a
    case Drive(cab, reversed, code) => Throttle(s, cab, reversed, code)
    case Locking(lock) => Lock(s, lock)
    case Other(op) => s.(q := Apply(s.q, op))
  }

  function DoAll(s: Station, acts: seq<Act>): Station {
    if acts == [] then s else Do(DoAll(s, acts[..|acts| - 1]), acts[|acts| - 1])
  }

  /** While locked: nobody unlocks, and what does not go through setThrottleDCC is no speed packet.
      Gate-on requests are packets for accessory decoders, with the first byte 10AAAAAA. */
  predicate Allowed(a: Act) {
    match a
    case Drive(_, _, _) => true
    case Locking(lock) => lock
    case Other(op) =>
      match op
      case Packet(packet, _, _) => !Moves(packet)
      case Function(packet, _, _) => !Moves(packet)
      case Accessory(packet, _, _) => packet != [] && 128 <= packet[0] < 0xC0
      case Speed(_, _, _) => false
      case Estop(_, _, _) => false
      case Next(_, _) => true
  }

  ghost predicate AllAllowed(acts: seq<Act>) {
    forall k | 0 <= k < |acts| :: Allowed(acts[k]) && (acts[k].Other? ==> Typed(acts[k].op))
  }

  /** DCC::setAccessory: nothing, an off or on packet, or a gate-on request that turns itself off. */
  function AccessoryActs(address: int, port: int, gate: bool, onoff: nat): seq<Act> {
    if !(0 <= address < 512 && 0 <= port < 4) then []
    else
      var packet := AccessoryPacket(address, port, gate);
      [Other(if onoff == 0 then Packet(GateOff(packet), 3, 0)
             else if onoff == 1 then Packet(packet, 3, 0)
             else Accessory(packet, 3, 100))]
  }

  /** Whatever setAccessory asks for is allowed while the lock is set. */
  lemma AccessoriesAreAllowed(address: int, port: int, gate: bool, onoff: nat)
    ensures var acts := AccessoryActs(address, port, gate, onoff);
      forall k | 0 <= k < |acts| :: Allowed(acts[k]) && Typed(acts[k].op)
  {
    if 0 <= address < 512 && 0 <= port < 4 {
      hide InvertTop;
      AccessoryDoesNotMove(address, port, gate);
      var packet := AccessoryPacket(address, port, gate);
      assert GateOff(packet)[0] == packet[0];
      assert Instruction(GateOff(packet)) == [];
    }
  }

  /** Main result: an accessory decoder that hears what setAccessory asks for is told that address, port and gate:
      off, on, or on and 100 ms later off.  Other addresses and ports are refused. */
  lemma AccessoryIsMeant(address: int, port: int, gate: bool, onoff: nat)
    ensures var acts := AccessoryActs(address, port, gate, onoff);
      if !(0 <= address < 512 && 0 <= port < 4) then acts == []
      else
        && |acts| == 1 && acts[0].Other? && acts[0].op.repeats == 3
        && CoilOf(acts[0].op.packet) == Coil(address, port, gate, onoff != 0)
        && (if onoff <= 1 then acts[0].op.Packet? && acts[0].op.loco == 0
            else
              && acts[0].op.Accessory? && acts[0].op.delay == 100
              && CoilOf(GateOff(acts[0].op.packet)) == Coil(address, port, gate, false))
  {
    if 0 <= address < 512 && 0 <= port < 4 {
      hide AccessoryPacket;
      CoilIsRead(address, port, gate);
      var p := AccessoryPacket(address, port, gate);
      assert Bit(p[1], 3) by { ThirdBit(p[1]); }
      assert GateOff(p) == [p[0], p[1] - 8];
    }
  }

  lemma ThirdBit(b: byte)
    ensures Bit(b, 3) <==> b / 8 % 2 == 1
  {
    ShrOnce(b, 1);
    ShrOnce(b, 2);
    ShrOnce(b, 3);
    assert b / 2 / 2 / 2 == b / 8;
  }

  // ---------- What is driven ----------

  /** The request that setThrottleDCC makes. */
  function Asks(s: Station, cab: uint16, reversed: bool, speedCode: byte): Op {
    var flipped := if reversed then (speedCode + 128) % 256 else speedCode;
    var code := if s.locked then flipped / 128 * 128 + 1 else flipped;
    var packet := SpeedPacket(cab, code, s.steps);
    if code % 128 == 1 then Op.Estop(packet, 4, cab) else Op.Speed(packet, 0, cab)
  }

  lemma ThrottleAsks(s: Station, cab: uint16, reversed: bool, speedCode: byte)
    ensures Throttle(s, cab, reversed, speedCode) == s.(q := Apply(s.q, Asks(s, cab, reversed, speedCode)))
  {
  }

  /** What a loco hears if it is to go at this speed code: that speed, in the direction that is its own if it
      faces the other way; under the lock the emergency stop in that direction. */
  predicate IsToldTo(packet: seq<byte>, s: Station, cab: uint16, reversed: bool, speedCode: byte) {
    var o := OrderOf(packet);
    && o.Go? && o.cab == cab && o.forward == ((speedCode >= 128) != reversed)
    && (if s.locked then o.speed == AtOnce else Means(speedCode % 128, s.steps, o.speed))
  }

  lemma Flips(speedCode: byte, reversed: bool)
    ensures var flipped := if reversed then (speedCode + 128) % 256 else speedCode;
      && flipped % 128 == speedCode % 128 && (flipped >= 128) == ((speedCode >= 128) != reversed)
      && var stop := flipped / 128 * 128 + 1; stop < 256 && stop % 128 == 1 && (stop >= 128) == (flipped >= 128)
  {
  }

  lemma AskedIsTold(s: Station, cab: uint16, reversed: bool, speedCode: byte)
    requires cab <= 10239
    ensures var op := Asks(s, cab, reversed, speedCode);
      && IsToldTo(op.packet, s, cab, reversed, speedCode) && |op.packet| <= 4
      && (if s.locked || speedCode % 128 == 1 then op.Estop? && op.repeats == 4 else op.Speed? && op.repeats == 0)
      && op.loco == cab
  {
    hide SpeedPacket, OrderOf;
    Flips(speedCode, reversed);
    var flipped := if reversed then (speedCode + 128) % 256 else speedCode;
    var code := if s.locked then flipped / 128 * 128 + 1 else flipped;
    OrderIsRead(cab, code, s.steps);
    EstopIsEstop(cab, code, s.steps);
  }

  /** The request with this tag waits in the high queue. */
  ghost predicate TagIsThere(q: Queues, tag: nat) {
    exists i | 0 <= i < |q.high| :: q.high[i].tag == tag
  }

  /** Main result: the packet that is queued for a loco tells it the speed that was meant, and the direction:
      forward if the code says so and it faces the way of its consist, or neither.  Under the lock it is told to
      stop in that direction, and a stop is in front of everything else. */
  lemma DriveIsQueued(s: Station, cab: uint16, reversed: bool, speedCode: byte)
    requires Fresh(s.q) && cab <= 10239
    ensures var t := Do(s, Drive(cab, reversed, speedCode)).q;
      && TagIsThere(t, s.q.next)
      && (forall i | 0 <= i < |t.high| && t.high[i].tag == s.q.next ::
            IsToldTo(t.high[i].packet, s, cab, reversed, speedCode))
      && (s.locked || speedCode % 128 == 1 ==> t.high[0].tag == s.q.next && t.high[0].repeats == 4)
      && t.low == s.q.low
  {
    ThrottleAsks(s, cab, reversed, speedCode);
    AskedIsTold(s, cab, reversed, speedCode);
    hide Asks, IsToldTo, Throttle;
    var at := SurvivorsAreOld(s.q.high, cab);
    var t, i := Do(s, Drive(cab, reversed, speedCode)).q, FindLoco(s.q.high, cab);
    assert t.high[if Asks(s, cab, reversed, speedCode).Estop? then 0 else i].tag == s.q.next;
  }

  /** And that is what is sent for it, whatever else is requested and whenever packets are sent. */
  lemma DriveIsSent(s: Station, cab: uint16, reversed: bool, speedCode: byte, more: seq<Op>)
    requires Fresh(s.q) && Coalesced(s.q) && cab <= 10239
    ensures var log := Run(Do(s, Drive(cab, reversed, speedCode)).q, more).log;
      forall k | 0 <= k < |log| && log[k].tag == s.q.next :: IsToldTo(log[k].packet, s, cab, reversed, speedCode)
  {
    hide Asks, IsToldTo, Throttle, Apply, Run;
    assert Do(s, Drive(cab, reversed, speedCode)) == Throttle(s, cab, reversed, speedCode);
    ThrottleAsks(s, cab, reversed, speedCode);
    AskedIsTold(s, cab, reversed, speedCode);
    SentIsAsked(s.q, Asks(s, cab, reversed, speedCode), more);
  }

  // ---------- The lock on speed entries ----------

  /** Every speed packet in the high-priority queue is an emergency stop. */
  ghost predicate AllStopped(q: Queues) {
    forall i | 0 <= i < |q.high| && q.high[i].kind.SPEED? :: MotionOf(q.high[i].packet) == EmergencyStop
  }

  lemma EstopStops(q: Queues, packet: seq<byte>, loco: nat)
    requires AllStopped(q) || loco == 0
    requires MotionOf(packet) == EmergencyStop
    ensures AllStopped(ScheduleEstop(q, packet, 4, loco))
  {
    var at := SurvivorsAreOld(q.high, loco);
  }

  lemma LockedThrottleStops(s: Station, cab: uint16, reversed: bool, speedCode: byte)
    requires s.locked && Coalesced(s.q) && (AllStopped(s.q) || cab == 0)
    ensures AllStopped(Throttle(s, cab, reversed, speedCode).q) && Coalesced(Throttle(s, cab, reversed, speedCode).q)
  {
    hide SpeedPacket, MotionOf, Coalesced, Survivors, AllStopped;
    var flipped := if reversed then (speedCode + 128) % 256 else speedCode;
    var packet := SpeedPacket(cab, flipped / 128 * 128 + 1, s.steps);
    EstopIsEstop(cab, flipped / 128 * 128 + 1, s.steps);
    EstopStops(s.q, packet, cab);
    EstopKeepsCoalesced(s.q, packet, 4, cab);
  }

  lemma NextKeepsStopped(q: Queues, force: bool, now: nat)
    requires Coalesced(q) && AllStopped(q)
    ensures AllStopped(ScheduleNext(q, force, now))
  {
    var i := FindSendable(q.high, now, q.last);
    if i < |q.high| {
      forall k | 0 <= k < |Drained(q.high, i)| && Drained(q.high, i)[k].kind.SPEED?
        ensures MotionOf(Drained(q.high, i)[k].packet) == EmergencyStop
      {
        var at := DrainedIsOld(q.high, i, k);
      }
    }
  }

  lemma LockedStepStops(s: Station, a: Act)
    requires s.locked && Coalesced(s.q) && AllStopped(s.q) && Allowed(a)
    requires a.Other? ==> Typed(a.op)
    ensures var t := Do(s, a); t.locked && Coalesced(t.q) && AllStopped(t.q)
  {
    match a
    case Drive(cab, reversed, code) => LockedThrottleStops(s, cab, reversed, code);
    case Locking(_) =>
    case Other(op) =>
      StepKeepsCoalesced(s.q, op);
      if op.Next? {
        NextKeepsStopped(s.q, op.force, op.now);
      }
  }

  /** Main result: from estopLock(true) until estopLock(false), whatever is driven, reminded, forgotten
      or sent, every speed entry of the high-priority queue carries the emergency stop code. */
  lemma {:induction false} LockHolds(s: Station, acts: seq<Act>)
    requires !s.locked && Coalesced(s.q)
    requires AllAllowed(acts)
    ensures var t := DoAll(Lock(s, true), acts); t.locked && Coalesced(t.q) && AllStopped(t.q)
    decreases |acts|
  {
    if acts == [] {
      LockedThrottleStops(s.(locked := true), 0, false, 1);
    } else {
      LockHolds(s, acts[..|acts| - 1]);
      LockedStepStops(DoAll(Lock(s, true), acts[..|acts| - 1]), acts[|acts| - 1]);
    }
  }

  /** The first packet that is sent after the lock has been set tells all locos to stop at once.  Releasing the lock
      touches nothing else. */
  lemma LockStopsAll(s: Station, force: bool, now: nat)
    requires !s.locked
    ensures var t := Lock(s, true);
      && t.locked && Lock(t, false) == t.(locked := false)
      && var log := ScheduleNext(t.q, force, now).log;
         |log| == |s.q.log| + 1 && OrderOf(log[|s.q.log|].packet) == Go(0, AtOnce, false)
  {
    var t := s.(locked := true);
    ThrottleAsks(t, 0, false, 1);
    AskedIsTold(t, 0, false, 1);
    var packet := Asks(t, 0, false, 1).packet;
    hide Asks, OrderOf, SpeedPacket, Survivors, ScheduleNext;
    EstopIsSentNext(s.q, packet, 4, 0, [], force, now);
  }

  // ---------- What is really sent under the lock ----------

  /** No entry of the low queue holds a moving speed packet; gate-on entries hold accessory packets. */
  ghost predicate Harmless(q: Queues) {
    && (forall i | 0 <= i < |q.low| :: !Moves(q.low[i].packet))
    && (forall i | 0 <= i < |q.low| && q.low[i].kind.ACC_ON? ::
          q.low[i].packet != [] && 128 <= q.low[i].packet[0] < 0xC0)
  }

  /** No entry at all holds a moving speed packet. */
  ghost predicate Secure(q: Queues) {
    Harmless(q) && forall i | 0 <= i < |q.high| :: !Moves(q.high[i].packet)
  }

  lemma GateOffDoesNotMove(packet: seq<byte>)
    requires packet != [] && 128 <= packet[0] < 0xC0
    ensures !Moves(packet) && !Moves(GateOff(packet))
  {
  }

  /** The log of `t` goes on from that of `q` without a moving packet. */
  ghost predicate NoneMoved(q: Queues, t: Queues) {
    q.log <= t.log && forall k | |q.log| <= k < |t.log| :: !Moves(t.log[k].packet)
  }

  lemma HighKeepsSecure(q: Queues, i: nat, now: nat)
    requires Coalesced(q) && Secure(q) && i < |q.high|
    ensures Secure(SendHigh(q, i, now)) && NoneMoved(q, SendHigh(q, i, now))
  {
    assert Jumped(q.high[i], now) == [];
    var t := SendHigh(q, i, now);
    forall k | 0 <= k < |t.high|
      ensures !Moves(t.high[k].packet)
    {
      var at := DrainedIsOld(q.high, i, k);
    }
  }

  lemma LowKeepsSecure(q: Queues, j: nat, now: nat)
    requires Secure(q) && j < |q.low|
    ensures Secure(SendLow(q, j, now)) && NoneMoved(q, SendLow(q, j, now))
  {
    if q.low[j].kind.ACC_ON? {
      GateOffDoesNotMove(q.low[j].packet);
    }
    var t := SendLow(q, j, now);
    forall k | 0 <= k < |t.low|
      ensures !Moves(t.low[k].packet)
      ensures t.low[k].kind.ACC_ON? ==> t.low[k].packet != [] && 128 <= t.low[k].packet[0] < 0xC0
    {
      var at := DrainedIsOld(q.low, j, k);
    }
  }

  lemma NextKeepsSecure(q: Queues, force: bool, now: nat)
    requires Coalesced(q) && Secure(q)
    ensures Secure(ScheduleNext(q, force, now)) && NoneMoved(q, ScheduleNext(q, force, now))
  {
    var i := FindSendable(q.high, now, q.last);
    var j := FindSendable(q.low, now, q.last);
    if i < |q.high| {
      HighKeepsSecure(q, i, now);
    } else if j < |q.low| {
      LowKeepsSecure(q, j, now);
    }
  }

  lemma EstopKeepsSecure(q: Queues, packet: seq<byte>, loco: nat)
    requires Secure(q) && !Moves(packet)
    ensures Secure(ScheduleEstop(q, packet, 4, loco))
  {
    var at := SurvivorsAreOld(q.high, loco);
  }

  lemma LockedThrottleKeepsSecure(s: Station, cab: uint16, reversed: bool, speedCode: byte)
    requires s.locked && Secure(s.q)
    ensures Secure(Throttle(s, cab, reversed, speedCode).q) && Throttle(s, cab, reversed, speedCode).q.log == s.q.log
  {
    var code := (if reversed then (speedCode + 128) % 256 else speedCode) / 128 * 128 + 1;
    EstopIsEstop(cab, code, s.steps);
    EstopKeepsSecure(s.q, SpeedPacket(cab, code, s.steps), cab);
  }

  lemma RequestKeepsSecure(s: Station, a: Act)
    requires s.locked && Secure(s.q) && Allowed(a) && !(a.Other? && a.op.Next?)
    ensures Secure(Do(s, a).q) && Do(s, a).q.log == s.q.log && Do(s, a).locked
  {
    match a
    case Drive(cab, reversed, speedCode) => LockedThrottleKeepsSecure(s, cab, reversed, speedCode);
    case Locking(_) =>
    case Other(op) =>
      if op.Accessory? {
        GateOffDoesNotMove(op.packet);
      }
  }

  /** If no waiting gate-off entry holds a moving speed packet, no speed packet but emergency stops leaves the
      queues while the station is locked. */
  lemma {:induction false} NothingMoves(s: Station, acts: seq<Act>)
    requires s.locked && Coalesced(s.q) && AllStopped(s.q) && Secure(s.q)
    requires AllAllowed(acts)
    ensures var t := DoAll(s, acts);
      && t.locked && Coalesced(t.q) && AllStopped(t.q) && Secure(t.q) && NoneMoved(s.q, t.q)
    decreases |acts|
  {
    if acts != [] {
      var before, a := DoAll(s, acts[..|acts| - 1]), acts[|acts| - 1];
      NothingMoves(s, acts[..|acts| - 1]);
      LockedStepStops(before, a);
      if a.Other? && a.op.Next? {
        NextKeepsSecure(before.q, a.op.force, a.op.now);
      } else {
        RequestKeepsSecure(before, a);
      }
    }
  }

  /** Is a moving speed packet waiting where a gate-off should be? */
  ghost predicate Corrupted(q: Queues) {
    exists c: nat :: CorruptedAt(q, c)
  }

  lemma LockedQueues(s: Station)
    requires !s.locked
    ensures var t := Lock(s, true).q;
      && t.low == s.q.low && t.high == [t.high[0]] + Survivors(s.q.high, 0)
      && t.high[0].kind == SPEED && !Moves(t.high[0].packet)
  {
    EstopIsEstop(0, 1, s.steps);
    hide SpeedPacket;
  }

  lemma LockKeepsCorrupted(s: Station, i: nat)
    requires !s.locked && CorruptedAt(s.q, i)
    ensures Corrupted(Lock(s, true).q)
  {
    LockedQueues(s);
    hide Lock, Moves;
    SurvivesAt(s.q.high, 0, i);
    var k :| 0 <= k < |Survivors(s.q.high, 0)| && Survivors(s.q.high, 0)[k] == s.q.high[i];
    assert CorruptedAt(Lock(s, true).q, k + 1);
  }

  lemma LockedHighIsOld(s: Station, k: nat)
    requires !s.locked && Coalesced(s.q) && 0 < k < |Lock(s, true).q.high|
    ensures Lock(s, true).q.high[k].kind.ACC_OFF? && Lock(s, true).q.high[k] in s.q.high
  {
    LockedQueues(s);
    hide Lock, Moves;
    var at := SurvivorsAreOld(s.q.high, 0);
    assert Lock(s, true).q.high[k] == s.q.high[at[k - 1]];
  }

  /** The lock purges all speed entries, so what it leaves is secure unless a gate-off is corrupted. */
  lemma LockPurges(s: Station)
    requires !s.locked && Coalesced(s.q) && Harmless(s.q)
    ensures Secure(Lock(s, true).q) <==> !Corrupted(s.q)
    ensures Corrupted(Lock(s, true).q) <==> Corrupted(s.q)
  {
    LockedQueues(s);
    hide Lock, Moves, Coalesced;
    var t := Lock(s, true).q;
    if Corrupted(s.q) {
      var i: nat :| CorruptedAt(s.q, i);
      LockKeepsCorrupted(s, i);
    }
    forall k | 0 < k < |t.high|
      ensures t.high[k].kind.ACC_OFF? && (Moves(t.high[k].packet) ==> Corrupted(s.q))
    {
      LockedHighIsOld(s, k);
      var i: nat :| i < |s.q.high| && s.q.high[i] == t.high[k];
      assert Moves(t.high[k].packet) ==> CorruptedAt(s.q, i);
    }
    forall k: nat | CorruptedAt(t, k)
      ensures Corrupted(s.q)
    {
      assert k > 0;
    }
  }

  lemma {:induction false} SurvivesAt(q: seq<Entry>, loco: nat, i: nat)
    requires i < |q| && !Stopped(q[i], loco)
    ensures q[i] in Survivors(q, loco)
    decreases |q|
  {
    if i > 0 {
      SurvivesAt(q[1..], loco, i - 1);
    }
  }

  // ---------- A corrupted gate-off does leave ----------

  function Weight(q: seq<Entry>): nat {
    if q == [] then 0 else q[0].repeats + 1 + Weight(q[1..])
  }

  lemma {:induction false} WeightSum(a: seq<Entry>, b: seq<Entry>)
    ensures Weight(a + b) == Weight(a) + Weight(b)
    decreases |a|
  {
    if a == [] {
      assert a + b == b;
    } else {
      assert (a + b)[1..] == a[1..] + b;
      WeightSum(a[1..], b);
    }
  }

  lemma WeightParts(q: seq<Entry>, i: nat, e: Entry)
    requires i < |q|
    ensures Weight(q) == Weight(q[..i]) + (q[i].repeats + 1) + Weight(q[i + 1..])
    ensures Weight(q[i := e]) == Weight(q[..i]) + (e.repeats + 1) + Weight(q[i + 1..])
    ensures Weight(Without(q, i)) == Weight(q[..i]) + Weight(q[i + 1..])
  {
    assert q == q[..i] + ([q[i]] + q[i + 1..]);
    assert q[i := e] == q[..i] + ([e] + q[i + 1..]);
    WeightSum(q[..i], [q[i]] + q[i + 1..]);
    WeightSum([q[i]], q[i + 1..]);
    WeightSum(q[..i], [e] + q[i + 1..]);
    WeightSum([e], q[i + 1..]);
    WeightSum(q[..i], q[i + 1..]);
  }

  lemma DrainLightens(q: seq<Entry>, i: nat)
    requires i < |q|
    ensures Weight(Drained(q, i)) < Weight(q)
  {
    WeightParts(q, i, q[i].(repeats := if q[i].repeats > 0 then q[i].repeats - 1 else 0));
  }

  /** Has a moving packet just gone out? */
  predicate MovedLast(q: Queues) {
    q.log != [] && Moves(q.log[|q.log| - 1].packet)
  }

  ghost predicate CorruptedAt(q: Queues, c: nat) {
    c < |q.high| && q.high[c].kind.ACC_OFF? && Moves(q.high[c].packet)
  }

  /** Sending another entry than the corrupted one leaves that in the queue. */
  lemma CorruptedStays(q: seq<Entry>, i: nat, c: nat)
    requires i < |q| && c < |q| && i != c
    ensures var k := if Stays(q[i]) || c < i then c else c - 1; k < |Drained(q, i)| && Drained(q, i)[k] == q[c]
  {
  }

  lemma HighGetsNearer(q: Queues, i: nat, c: nat, now: nat)
    requires Coalesced(q) && AllFit(q) && CorruptedAt(q, c) && i < |q.high|
    ensures var t := SendHigh(q, i, now);
      MovedLast(t) || (Corrupted(t) && t.low == q.low && Weight(t.high) < Weight(q.high))
  {
    var t := SendHigh(q, i, now);
    DrainLightens(q.high, i);
    assert t.high == Drained(q.high, i);
    if !Moves(q.high[i].packet) {
      CorruptedStays(q.high, i, c);
      hide Drained, Moves, Weight, SendHigh;
      assert CorruptedAt(t, if Stays(q.high[i]) || c < i then c else c - 1);
    } else {
      hide Drained, Moves, Weight, Corrupted;
      assert t.log == q.log + [Transmission(q.high[i], now)];
    }
  }

  lemma LowGetsNearer(q: Queues, j: nat, c: nat, now: nat)
    requires CorruptedAt(q, c) && j < |q.low|
    ensures Corrupted(SendLow(q, j, now)) && Weight(SendLow(q, j, now).low) < Weight(q.low)
  {
    DrainLightens(q.low, j);
    var n := |Jumped(q.low[j], now)|;
    assert CorruptedAt(SendLow(q, j, now), n + c);
  }

  /** One dequeue either sends a moving packet or brings that moment nearer. */
  lemma NextGetsNearer(q: Queues, now: nat)
    requires Coalesced(q) && AllFit(q) && Corrupted(q)
    requires forall i | 0 <= i < |q.high| :: q.high[i].word <= now
    ensures var t := ScheduleNext(q, true, now);
      MovedLast(t) ||
      (Corrupted(t) && (Weight(t.low) < Weight(q.low) ||
        (t.low == q.low && (Weight(t.high) < Weight(q.high) || (t.high == q.high && q.last != 0 && t.last == 0)))))
  {
    var c: nat :| CorruptedAt(q, c);
    var i := FindSendable(q.high, now, q.last);
    var j := FindSendable(q.low, now, q.last);
    if i < |q.high| {
      HighGetsNearer(q, i, c, now);
    } else {
      assert !Sendable(q.high[c], now, q.last);
      if j < |q.low| {
        LowGetsNearer(q, j, c, now);
      } else {
        assert CorruptedAt(ScheduleNext(q, true, now), c);
      }
    }
  }

  /** If a gate-off is corrupted, dequeues alone will send a moving packet, locked or not, whatever the time is
      and without the clock going backwards. */
  lemma {:induction false} CorruptionLeaves(q: Queues, since: nat) returns (times: seq<nat>)
    requires Coalesced(q) && AllFit(q) && Corrupted(q)
    ensures Ascending(since, times) && MovedLast(NextAll(q, times)) && |NextAll(q, times).log| > |q.log|
    decreases Weight(q.low), Weight(q.high), q.last != 0
  {
    hide Corrupted, Weight, Moves, ScheduleNext;
    var now := LaterThanAll(q.high, since);
    NextGetsNearer(q, now);
    var t := ScheduleNext(q, true, now);
    StepKeepsFits(q, Next(true, now));
    StepKeepsCoalesced(q, Next(true, now));
    NextLogs(q, now);
    if MovedLast(t) {
      times := [now];
      assert NextAll(t, []) == t;
    } else {
      var more := CorruptionLeaves(t, now);
      times := [now] + more;
    }
  }

  // ---------- Exactly when the lock leaks ----------

  lemma {:induction false} SecureDequeues(q: Queues, times: seq<nat>)
    requires Coalesced(q) && Secure(q)
    ensures NoneMoved(q, NextAll(q, times))
    decreases |times|
  {
    if times != [] {
      hide Secure, ScheduleNext, Moves;
      NextKeepsSecure(q, true, times[0]);
      StepKeepsCoalesced(q, Next(true, times[0]));
      SecureDequeues(ScheduleNext(q, true, times[0]), times[1..]);
    }
  }

  lemma {:induction false} DequeuesFit(q: Queues, times: seq<nat>)
    requires AllFit(q)
    ensures AllFit(NextAll(q, times)) && q.log <= NextAll(q, times).log
    decreases |times|
  {
    if times != [] {
      hide ScheduleNext, AllFit;
      StepKeepsFits(q, Next(true, times[0]));
      NextLogs(q, times[0]);
      DequeuesFit(ScheduleNext(q, true, times[0]), times[1..]);
    }
  }

  lemma DoneNothing(s: Station)
    ensures DoAll(s, []) == s
  {
  }

  lemma LockFits(s: Station)
    requires AllFit(s.q)
    ensures AllFit(Lock(s, true).q)
  {
    hide SpeedPacket;
    EstopIsEstop(0, 1, s.steps);
    var at := SurvivorsAreOld(s.q.high, 0);
  }

  /** Main result on what the lock does not do: once it is set, dequeues in the order of time can send a moving
      speed packet if and only if a waiting gate-off had been overwritten by one before; and if not, nothing
      that may happen while it is set does. */
  lemma LockLeaksExactly(s: Station, since: nat)
    requires !s.locked && Coalesced(s.q) && AllFit(s.q) && Harmless(s.q)
    ensures var q := Lock(s, true).q;
      (exists times :: Ascending(since, times) && !NoneMoved(q, NextAll(q, times))) <==> Corrupted(s.q)
    ensures !Corrupted(s.q) ==>
      forall acts | AllAllowed(acts) :: NoneMoved(Lock(s, true).q, DoAll(Lock(s, true), acts).q)
  {
    hide Corrupted, Secure, Moves, Lock, NextAll, DoAll, Ascending, Harmless;
    LockPurges(s);
    LockHolds(s, []);
    LockFits(s);
    var t := Lock(s, true);
    DoneNothing(t);
    if Corrupted(s.q) {
      var times := CorruptionLeaves(t.q, since);
      DequeuesFit(t.q, times);
      assert !NoneMoved(t.q, NextAll(t.q, times));
    } else {
      forall times ensures NoneMoved(t.q, NextAll(t.q, times)) {
        SecureDequeues(t.q, times);
      }
      forall acts | AllAllowed(acts) ensures NoneMoved(t.q, DoAll(t, acts).q) {
        NothingMoves(t, acts);
      }
    }
  }

  // ---------- From boot on ----------

  /** Everything that happens while the lock is not set, too: the same, and unlocking; and a speed packet that is
      not a stop does not find a gate-off in its place. */
  ghost predicate Sparing(s: Station, a: Act) {
    match a
    case Drive(cab, reversed, code) =>
      var flipped := if reversed then (code + 128) % 256 else code;
      var i := FindLoco(s.q.high, cab);
      !s.locked && flipped % 128 != 1 && i < |s.q.high| ==> !s.q.high[i].kind.ACC_OFF?
    case Locking(_) => true
    case Other(op) => Allowed(a) && Typed(op) && Fits(op)
  }

  ghost predicate AllSparing(s: Station, acts: seq<Act>) {
    forall k | 0 <= k < |acts| :: Sparing(DoAll(s, acts[..k]), acts[k])
  }

  ghost predicate Sound(q: Queues) {
    Coalesced(q) && AllFit(q) && Harmless(q)
  }

  /** `t` is sound, and corrupted at most if `q` was. */
  ghost predicate NoWorse(q: Queues, t: Queues) {
    Sound(t) && (Corrupted(t) ==> Corrupted(q))
  }

  lemma EstopKeepsSound(q: Queues, packet: seq<byte>, loco: nat)
    requires Sound(q) && |packet| <= MAX_PACKET_SIZE
    ensures NoWorse(q, ScheduleEstop(q, packet, 4, loco))
  {
    hide Moves;
    EstopKeepsCoalesced(q, packet, 4, loco);
    var at := SurvivorsAreOld(q.high, loco);
    var t := ScheduleEstop(q, packet, 4, loco);
    forall c: nat | CorruptedAt(t, c) ensures Corrupted(q) {
      assert c > 0;
      assert CorruptedAt(q, at[c - 1]);
    }
  }

  lemma SpeedKeepsSound(q: Queues, packet: seq<byte>, loco: uint16)
    requires Sound(q) && |packet| <= MAX_PACKET_SIZE
    requires var i := FindLoco(q.high, loco); i < |q.high| ==> !q.high[i].kind.ACC_OFF?
    ensures NoWorse(q, ScheduleSpeed(q, packet, 0, loco))
  {
    hide Moves;
    SpeedKeepsCoalesced(q, packet, 0, loco);
    var t := ScheduleSpeed(q, packet, 0, loco);
    forall c: nat | CorruptedAt(t, c) ensures Corrupted(q) {
      assert CorruptedAt(q, c);
    }
  }

  lemma ThrottleKeepsSound(s: Station, cab: uint16, reversed: bool, code: byte)
    requires Sound(s.q) && Sparing(s, Drive(cab, reversed, code))
    ensures NoWorse(s.q, Throttle(s, cab, reversed, code).q)
  {
    hide Sound, Corrupted, SpeedPacket, MotionOf;
    var flipped := if reversed then (code + 128) % 256 else code;
    var sent := if s.locked then flipped / 128 * 128 + 1 else flipped;
    var packet := SpeedPacket(cab, sent, s.steps);
    EstopIsEstop(cab, sent, s.steps);
    if sent % 128 == 1 {
      EstopKeepsSound(s.q, packet, cab);
    } else {
      SpeedKeepsSound(s.q, packet, cab);
    }
  }

  lemma HighKeepsSound(q: Queues, i: nat, now: nat)
    requires Sound(q) && i < |q.high|
    ensures NoWorse(q, SendHigh(q, i, now))
  {
    hide Moves, Drained;
    SendHighKeepsCoalesced(q, i, now);
    var t := SendHigh(q, i, now);
    assert t.high == Drained(q.high, i);
    forall c: nat | CorruptedAt(t, c) ensures Corrupted(q) {
      var at := DrainedIsOld(q.high, i, c);
      assert CorruptedAt(q, at);
    }
    DrainKeepsFits(q.high, i);
  }

  lemma DrainKeepsFits(q: seq<Entry>, i: nat)
    requires i < |q| && forall k | 0 <= k < |q| :: |q[k].packet| <= MAX_PACKET_SIZE
    ensures forall k | 0 <= k < |Drained(q, i)| :: |Drained(q, i)[k].packet| <= MAX_PACKET_SIZE
  {
    forall k | 0 <= k < |Drained(q, i)| ensures |Drained(q, i)[k].packet| <= MAX_PACKET_SIZE {
      var at := DrainedIsOld(q, i, k);
    }
  }

  lemma LowKeepsSound(q: Queues, j: nat, now: nat)
    requires Sound(q) && j < |q.low|
    ensures NoWorse(q, SendLow(q, j, now))
  {
    hide Moves, Drained;
    SendLowKeepsCoalesced(q, j, now);
    var t := SendLow(q, j, now);
    if q.low[j].kind.ACC_ON? {
      GateOffDoesNotMove(q.low[j].packet);
    }
    forall k | 0 <= k < |t.low|
      ensures !Moves(t.low[k].packet)
      ensures t.low[k].kind.ACC_ON? ==> t.low[k].packet != [] && 128 <= t.low[k].packet[0] < 0xC0
    {
      var at := DrainedIsOld(q.low, j, k);
    }
    var n := |Jumped(q.low[j], now)|;
    forall c: nat | CorruptedAt(t, c) ensures Corrupted(q) {
      assert c >= n;
      assert CorruptedAt(q, c - n);
    }
    DrainKeepsFits(q.low, j);
  }

  lemma OtherKeepsSound(s: Station, op: Op)
    requires Sound(s.q) && Sparing(s, Other(op))
    ensures NoWorse(s.q, Apply(s.q, op))
  {
    var q := s.q;
    StepKeepsCoalesced(q, op);
    StepKeepsFits(q, op);
    hide Moves, Coalesced, Drained, SendHigh, SendLow;
    match op
    case Next(force, now) =>
      var i, j := FindSendable(q.high, now, q.last), FindSendable(q.low, now, q.last);
      if i < |q.high| {
        HighKeepsSound(q, i, now);
      } else if j < |q.low| {
        LowKeepsSound(q, j, now);
      } else {
        SameHigh(q, Apply(q, op));
      }
    case Accessory(packet, _, _) =>
      GateOffDoesNotMove(packet);
      SameHigh(q, Apply(q, op));
    case _ =>
      SameHigh(q, Apply(q, op));
  }

  lemma SameHigh(q: Queues, t: Queues)
    requires q.high == t.high
    ensures Corrupted(q) <==> Corrupted(t)
  {
    hide Moves;
    forall c: nat ensures CorruptedAt(q, c) <==> CorruptedAt(t, c) {
    }
  }

  lemma {:induction false} RunsAreSound(steps: byte, acts: seq<Act>)
    requires AllSparing(Station(EMPTY, false, steps), acts)
    ensures var q := DoAll(Station(EMPTY, false, steps), acts).q; Sound(q) && !Corrupted(q)
    decreases |acts|
  {
    var boot := Station(EMPTY, false, steps);
    if acts != [] {
      hide Sound, Corrupted, Throttle, Sparing;
      var before, a := acts[..|acts| - 1], acts[|acts| - 1];
      forall k | 0 <= k < |before| ensures Sparing(DoAll(boot, before[..k]), before[k]) {
        assert before[..k] == acts[..k];
      }
      RunsAreSound(steps, before);
      var s := DoAll(boot, before);
      match a
      case Drive(cab, reversed, code) => ThrottleKeepsSound(s, cab, reversed, code);
      case Locking(lock) =>
        if lock && !s.locked {
          ThrottleKeepsSound(s.(locked := true), 0, false, 1);
        }
      case Other(op) => OtherKeepsSound(s, op);
    }
  }

  /** Main result from boot on: if no speed packet has found a gate-off in its place before the lock is set,
      no moving speed packet leaves the queues until it is released. */
  lemma BootedLockHolds(steps: byte, before: seq<Act>, acts: seq<Act>)
    requires var boot := Station(EMPTY, false, steps); AllSparing(boot, before) && !DoAll(boot, before).locked
    requires AllAllowed(acts)
    ensures var s := DoAll(Station(EMPTY, false, steps), before);
      NoneMoved(Lock(s, true).q, DoAll(Lock(s, true), acts).q)
  {
    hide DoAll, Lock, NoneMoved, AllAllowed, AllSparing, Coalesced, AllFit, Harmless, Corrupted;
    RunsAreSound(steps, before);
    LockLeaksExactly(DoAll(Station(EMPTY, false, steps), before), 0);
  }

  // ---------- A leak ----------

  /** An input on which the lock leaks: a turnout pulse is waiting to end at time 103, loco 103 is driven, and
      the lock is set; the drive packet that took the pulse's slot is still sent. */
  lemma LockLeaks()
    ensures var s2 := Do(Do(Station(EMPTY, false, 128), Other(Accessory([0x81, 0xF9], 0, 100))), Other(Next(false, 3)));
      var s4 := Do(Do(s2, Drive(103, false, 0x90)), Locking(true));
      var s6 := Do(Do(s4, Other(Next(false, 50))), Other(Next(false, 200)));
      s6.locked && MovedLast(s6.q) && s6.q.log[|s6.q.log| - 1].packet == [103, 0x3F, 0x90]
  {
    var s0 := Station(EMPTY, false, 128);
    var q2 := PulseWaits();
    var s2 := Do(Do(s0, Other(Accessory([0x81, 0xF9], 0, 100))), Other(Next(false, 3)));
    assert s2 == Station(q2, false, 128);
    LeakFrom(s2);
  }

  lemma LeakFrom(s2: Station)
    requires !s2.locked && s2.steps == 128 && s2.q.low == []
    requires s2.q.high == [Entry(ACC_OFF, [0x81, 0xF1], 0, 103, 0)]
    ensures var s4 := Do(Do(s2, Drive(103, false, 0x90)), Locking(true));
      var s6 := Do(Do(s4, Other(Next(false, 50))), Other(Next(false, 200)));
      s6.locked && MovedLast(s6.q) && s6.q.log[|s6.q.log| - 1].packet == [103, 0x3F, 0x90]
  {
    hide ScheduleNext, Throttle, Lock;
    var e := Entry(ACC_OFF, [103, 0x3F, 0x90], 0, 103, s2.q.next);
    PulseIsTaken(s2, e);
    var s3 := Do(s2, Drive(103, false, 0x90));
    var s4 := Do(s3, Locking(true));
    LockSparesPulse(s3, e);
    assert s4.q.high == [s4.q.high[0], e];
    LeakSends(s4.q, s4.q.high[0], e);
  }

  lemma PulseIsTaken(s: Station, e: Entry)
    requires !s.locked && s.steps == 128 && s.q.high == [Entry(ACC_OFF, [0x81, 0xF1], 0, 103, 0)]
    requires e == Entry(ACC_OFF, [103, 0x3F, 0x90], 0, 103, s.q.next)
    ensures Do(s, Drive(103, false, 0x90)) == s.(q := s.q.(high := [e], next := s.q.next + 1))
  {
    assert SpeedPacket(103, 0x90, 128) == [103, 0x3F, 0x90];
    assert FindLoco(s.q.high, 103) == 0;
  }

  lemma LockSparesPulse(s: Station, e: Entry)
    requires !s.locked && s.q.high == [e] && e.kind == ACC_OFF
    ensures var t := Do(s, Locking(true));
      && t.locked && t.q.low == s.q.low && |t.q.high| == 2 && t.q.high[1] == e
      && t.q.high[0].LocoId() == 0 && t.q.high[0].kind == SPEED
  {
    assert Survivors([e], 0) == [e];
  }

  lemma LeakSends(q: Queues, estop: Entry, e: Entry)
    requires q.high == [estop, e] && q.low == [] && estop.LocoId() == 0 && estop.kind == SPEED
    requires e.kind == ACC_OFF && e.word == 103 && e.repeats == 0 && e.packet == [103, 0x3F, 0x90]
    ensures var t := ScheduleNext(ScheduleNext(q, false, 50), false, 200);
      MovedLast(t) && t.log[|t.log| - 1].packet == [103, 0x3F, 0x90]
  {
    assert FindSendable(q.high, 50, q.last) == 0;
    var t := ScheduleNext(q, false, 50);
    assert t.high == [e] && t.last == 0 && t.low == [];
    assert FindSendable(t.high, 200, 0) == 0;
  }
}

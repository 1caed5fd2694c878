/** What every interleaving of interrupts and the main loop puts on the pin. */
module WaveformRuns {
  import opened Bytes
  import opened DccSignal
  import opened Waveform

  // ---------- Levels ----------

  /** The levels so far and those that the current bit still needs are the levels of all bits chosen. */
  ghost predicate LevelsFit(s: System) {
    match s.t.wave
    case START => s.levels == Levels(s.sent)
    case MID_1 => s.levels + [LOW] == Levels(s.sent)
    case HIGH_0 => s.levels + [HIGH, LOW, LOW] == Levels(s.sent)
    case MID_0 => s.levels + [LOW, LOW] == Levels(s.sent)
    case LOW_0 => s.levels + [LOW] == Levels(s.sent)
    case PENDING => false
  }

  lemma TickFits(s: System)
    requires Typed(s.t) && LevelsFit(s)
    ensures LevelsFit(Interrupt(s))
  {
    hide NextBit, Advance, NewSlots;
    var u := Interrupt(s);
    match s.t.wave
    case START =>
      var bit := NextBit(s.t);
      assert u.sent == s.sent + [bit];
      assert u.sent[..|s.sent|] == s.sent;
      if bit {
        assert u.levels + [LOW] == s.levels + [HIGH, LOW];
      } else {
        assert u.levels + [HIGH, LOW, LOW] == s.levels + [HIGH, HIGH, LOW, LOW];
      }
    case MID_1 =>
    case HIGH_0 => assert u.levels + [LOW, LOW] == s.levels + [HIGH, LOW, LOW];
    case MID_0 => assert u.levels + [LOW] == s.levels + [LOW, LOW];
    case LOW_0 =>
  }

  // ---------- Bits ----------

  /** Before the first preamble a track sends one byte of its idle packet. */
  const BOOT: byte := 0xFF

  /** All bits so far, in terms of the packets begun: in the boot byte, in the preamble before the next
      packet, at its end when the packet is chosen, or in the packet. */
  ghost predicate BitsFit(s: System)
    requires Typed(s.t)
  {
    var t := s.t;
    && t.required > MIN_PREAMBLE && t.preambles <= t.required
    && (t.preambles > 0 ==> t.bits == 0 && t.bytes == 0)
    && (forall i | 0 <= i < |s.frames| :: s.frames[i] != [])
    && if s.frames == [] && t.preambles == 0 then Booting(t, s.sent)
       else if t.preambles > 1 then s.sent == Before(s.frames, t) + Ones(t.required - t.preambles)
       else
         && s.frames != [] && t.packet[..t.length] == Last(s.frames)
         && if t.preambles == 1 then s.sent == Before(Front(s.frames), t) + Ones(t.required - 1)
            else t.bytes < t.length && s.sent == Before(Front(s.frames), t) + Ones(t.required) + Sent(t)
  }

  ghost predicate Booting(t: Track, sent: seq<bool>)
    requires Typed(t)
  {
    t.bytes == 0 && t.length == 0 && t.packet[0] == BOOT && sent == ByteBits(BOOT)[..t.bits]
  }

  /** The boot byte, and packets with their preambles. */
  function Before(packets: seq<seq<byte>>, t: Track): seq<bool> {
    ByteBits(BOOT) + Framed(packets, t.required)
  }

  /** What a track has sent of its packet. */
  function Sent(t: Track): seq<bool>
    requires Typed(t) && t.bytes < t.length
  {
    Body(t.packet[..t.length])[..9 * t.bytes + t.bits]
  }

  function Last<T>(q: seq<T>): T
    requires q != []
  {
    q[|q| - 1]
  }

  function Front<T>(q: seq<T>): seq<T>
    requires q != []
  {
    q[..|q| - 1]
  }

  lemma ChosenBit(t: Track)
    requires Typed(t) && t.preambles == 0
    ensures NextBit(t) == ByteBits(t.packet[t.bytes])[t.bits]
  {
  }

  /** One bit more of a packet. */
  lemma SentGrows(t: Track)
    requires Typed(t) && t.preambles == 0 && t.bytes < t.length
    ensures var body := Body(t.packet[..t.length]);
      var n := 9 * t.bytes + t.bits;
      n < |body| && Sent(t) + [NextBit(t)] == body[..n + 1]
  {
    hide ByteBits, Body, NextBit;
    var body := Body(t.packet[..t.length]);
    var n := 9 * t.bytes + t.bits;
    BodyBit(t.packet[..t.length], t.bytes, t.bits);
    ChosenBit(t);
  }

  lemma BodyFits(s: System)
    requires Typed(s.t) && BitsFit(s) && s.t.wave == START && s.t.preambles == 0 && s.frames != []
    ensures BitsFit(Interrupt(s))
  {
    hide ByteBits, Framed, NextBit, NewSlots, Body;
    var t, u := s.t, Interrupt(s);
    SentGrows(t);
    var before := Before(Front(s.frames), t) + Ones(t.required);
    assert u.sent == before + (Sent(t) + [NextBit(t)]);
    if t.bits == 8 && t.bytes + 1 >= t.length {
      var body := Body(t.packet[..t.length]);
      assert body[..|body|] == body;
      FramedLast(s.frames, t.required);
      assert before + body == Before(s.frames, t) + Ones(0);
    }
  }

  lemma FramedLast(q: seq<seq<byte>>, preamble: nat)
    requires q != []
    ensures Framed(q, preamble) == Framed(Front(q), preamble) + Ones(preamble) + Body(Last(q))
  {
  }

  /** A bit of the boot byte. */
  lemma BootFits(s: System)
    requires Typed(s.t) && BitsFit(s) && s.t.wave == START && s.t.preambles == 0 && s.frames == []
    ensures BitsFit(Interrupt(s))
  {
    hide ByteBits, NextBit, NewSlots;
    var t := s.t;
    ChosenBit(t);
    assert ByteBits(BOOT)[..t.bits] + [ByteBits(BOOT)[t.bits]] == ByteBits(BOOT)[..t.bits + 1];
    assert ByteBits(BOOT)[..9] == ByteBits(BOOT);
    assert Framed([], t.required) == [];
    assert Ones(0) == [];
  }

  /** One more one. */
  lemma OneMore(before: seq<bool>, n: nat)
    ensures before + Ones(n) + [true] == before + Ones(n + 1)
  {
    assert Ones(n) + [true] == Ones(n + 1);
  }

  /** A bit of the preamble; the last but one chooses the packet. */
  lemma PreambleFits(s: System)
    requires Typed(s.t) && BitsFit(s) && s.t.wave == START && s.t.preambles > 0 && SlotsFit(s)
    ensures BitsFit(Interrupt(s))
  {
    hide ByteBits, Framed, NewSlots, Body, SlotsFit;
    var t, u := s.t, Interrupt(s);
    if t.preambles == 2 {
      ChoiceIsGood(s);
      OneMore(Before(s.frames, t), t.required - 2);
      assert Front(u.frames) == s.frames;
    } else if t.preambles == 1 {
      OneMore(Before(Front(s.frames), t), t.required - 1);
      assert Sent(u.t) == [];
      assert u.sent == Before(Front(s.frames), t) + Ones(t.required) + [];
    } else {
      OneMore(Before(s.frames, t), t.required - t.preambles);
    }
  }

  /** The packet that a promotion chooses is not empty. */
  lemma ChoiceIsGood(s: System)
    requires Typed(s.t) && SlotsFit(s)
    ensures var u := Promote(s.t); u.packet[..u.length] != []
  {
    if s.t.repeats == 0 && s.t.isPending {
      assert Last(s.published) == Offered(s.t)[0];
    }
  }

  // ---------- Slots ----------

  function Copies(packet: seq<byte>, n: nat): seq<seq<byte>> {
    seq(n, _ => packet)
  }

  /** The packets that a series of slots stands for. */
  function Expand(log: seq<Slot>): seq<seq<byte>> {
    if log == [] then [] else Expand(Front(log)) + Copies(Last(log).packet, Last(log).times)
  }

  function Real(log: seq<Slot>): seq<Slot> {
    if log == [] then [] else Real(Front(log)) + if Last(log).filler then [] else [Last(log)]
  }

  /** Idle packets fill the main track, and reset packets the programming track. */
  predicate GoodSlot(main: bool, slot: Slot) {
    && slot.packet != [] && |slot.packet| <= 6 && Checksum(slot.packet) == 0
    && (slot.filler ==> slot.times == 1 && slot.packet == if main then [0xFF, 0x00, 0xFF] else [0, 0, 0])
  }

  /** What the main loop has published and the interrupt not yet taken. */
  function Offered(t: Track): seq<Slot>
    requires Typed(t)
  {
    if t.isPending then [Slot(t.pending[..t.pendingLength], t.pendingRepeats + 1, false)] else []
  }

  /** The packets begun are the slots, less the repeats still to come; the slots that are no fillers are
      what was published, in order and untorn, less what is still offered. */
  ghost predicate SlotsFit(s: System)
    requires Typed(s.t)
  {
    && (forall i | 0 <= i < |s.log| :: GoodSlot(s.t.main, s.log[i]))
    && (forall i | 0 <= i < |s.published| :: GoodSlot(s.t.main, s.published[i]))
    && Real(s.log) + Offered(s.t) == s.published
    && (if s.log == [] then s.frames == [] && s.t.repeats == 0
        else
          && s.t.packet[..s.t.length] == Last(s.log).packet
          && s.frames + Copies(Last(s.log).packet, s.t.repeats) == Expand(s.log))
  }

  lemma CopiesOne(packet: seq<byte>, n: nat)
    ensures Copies(packet, n + 1) == [packet] + Copies(packet, n)
    ensures Copies(packet, 0) == []
  {
  }

  lemma FillersAreGood()
    ensures GoodSlot(true, Slot(IDLE, 1, true)) && GoodSlot(false, Slot(RESET, 1, true))
  {
    assert IDLE == Sealed([0xFF, 0]) by {
      assert [0xFF, 0][..1] == [0xFF] && [0xFF][..0] == [];
    }
    SealedChecks([0xFF, 0]);
    assert RESET == Sealed([0, 0]) by {
      assert [0, 0][..1] == [0] && [0][..0] == [];
    }
    SealedChecks([0, 0]);
  }

  lemma LogOne(log: seq<Slot>, slot: Slot)
    ensures Expand(log + [slot]) == Expand(log) + Copies(slot.packet, slot.times)
    ensures Real(log + [slot]) == Real(log) + if slot.filler then [] else [slot]
  {
    assert Front(log + [slot]) == log;
  }

  /** A promotion while repeats are left begins the same packet again. */
  lemma RepeatFits(s: System)
    requires Typed(s.t) && SlotsFit(s) && s.t.wave == START && s.t.preambles == 2 && s.t.repeats > 0
    ensures SlotsFit(Interrupt(s))
  {
    hide Checksum, NextBit, Copies, Expand, Real;
    var t, u := s.t, Interrupt(s);
    CopiesOne(Last(s.log).packet, t.repeats - 1);
    assert u.frames == s.frames + [Last(s.log).packet];
    assert u.log == s.log;
  }

  /** A promotion otherwise begins a new slot. */
  lemma NewSlotFits(s: System)
    requires Typed(s.t) && SlotsFit(s) && s.t.wave == START && s.t.preambles == 2 && s.t.repeats == 0
    ensures SlotsFit(Interrupt(s))
  {
    hide Checksum, NextBit, Copies, Expand, Real;
    var t, u := s.t, Interrupt(s);
    var slot := NewSlots(t)[0];
    NothingLeft(s);
    FillersAreGood();
    if t.isPending {
      assert Last(s.published) == Offered(t)[0];
    } else {
      assert u.t.packet[..3] == slot.packet;
    }
    LogOne(s.log, slot);
    CopiesOne(slot.packet, slot.times - 1);
    assert u.log == s.log + [slot];
    assert u.frames == s.frames + [slot.packet];
  }

  /** Without repeats left, the packets begun are all the slots stand for. */
  lemma NothingLeft(s: System)
    requires Typed(s.t) && SlotsFit(s) && s.t.repeats == 0
    ensures s.frames == Expand(s.log)
  {
    if s.log != [] {
      assert Copies(Last(s.log).packet, 0) == [];
    }
  }

  lemma TickKeepsSlots(s: System)
    requires Typed(s.t) && SlotsFit(s) && s.t.wave != PENDING
    ensures SlotsFit(Interrupt(s))
  {
    if s.t.wave == START && s.t.preambles == 2 {
      if s.t.repeats > 0 {
        RepeatFits(s);
      } else {
        NewSlotFits(s);
      }
    } else {
      hide Checksum, NextBit, Copies, Expand, Real, GoodSlot;
      var t, u := s.t, Interrupt(s);
      assert u.t.packet == t.packet && u.t.length == t.length && u.t.repeats == t.repeats;
      assert Offered(u.t) == Offered(t);
    }
  }

  // ---------- The main loop ----------

  /** What the main loop has put in the pending buffer, which nobody reads until it is published. */
  ghost predicate WriterFits(s: System)
    requires Typed(s.t)
  {
    match s.w
    case Away => true
    case Waiting(buffer, _) => |buffer| <= MAX_PACKET_SIZE
    case Filling(buffer, _, b, checksum) =>
      && !s.t.isPending && |buffer| <= MAX_PACKET_SIZE && b <= |buffer|
      && s.t.pending[..b] == buffer[..b] && checksum == Checksum(buffer[..b])
    case Filled(buffer, _) =>
      !s.t.isPending && |buffer| <= MAX_PACKET_SIZE && s.t.pending[..|buffer| + 1] == Sealed(buffer)
    case Sized(buffer, _) =>
      && !s.t.isPending && |buffer| <= MAX_PACKET_SIZE && s.t.pending[..|buffer| + 1] == Sealed(buffer)
      && s.t.pendingLength == |buffer| + 1
    case Counted(buffer, repeats) =>
      && !s.t.isPending && |buffer| <= MAX_PACKET_SIZE && s.t.pending[..|buffer| + 1] == Sealed(buffer)
      && s.t.pendingLength == |buffer| + 1 && s.t.pendingRepeats == repeats
  }

  lemma WriteKeepsWriter(s: System)
    requires Typed(s.t) && WriterFits(s)
    ensures Typed(Write(s).t) && WriterFits(Write(s))
  {
    hide XorBytes;
    if s.w.Filling? {
      var buffer, b, t := s.w.buffer, s.w.b, Write(s).t;
      if b < |buffer| {
        assert buffer[..b + 1][..b] == buffer[..b];
        assert t.pending[..b + 1] == s.t.pending[..b] + [buffer[b]];
      } else {
        assert buffer[..b] == buffer;
        assert t.pending[..b + 1] == s.t.pending[..b] + [s.w.checksum];
      }
    }
  }

  lemma WriteKeepsSlots(s: System)
    requires Typed(s.t) && Typed(Write(s).t) && WriterFits(s) && SlotsFit(s)
    ensures SlotsFit(Write(s))
  {
    hide Checksum, Copies, Expand, Real, XorBytes;
    if s.w.Counted? {
      SealedChecks(s.w.buffer);
    }
  }

  // ---------- Every run ----------

  ghost predicate Good(s: System) {
    Typed(s.t) && LevelsFit(s) && SlotsFit(s) && BitsFit(s) && WriterFits(s)
  }

  function RunFrom(main: bool, events: seq<Event>): System {
    if events == [] then NewSystem(main)
    else
      var s := RunFrom(main, events[..|events| - 1]);
      if Typed(s.t) then Do(s, events[|events| - 1]) else s
  }

  lemma StartIsGood(main: bool)
    ensures Good(NewSystem(main))
  {
  }

  lemma InStep(s: System)
    requires LevelsFit(s)
    ensures s.t.wave != PENDING
  {
  }

  lemma TickKeepsGood(s: System)
    requires Good(s)
    ensures Good(Interrupt(s))
  {
    hide LevelsFit, SlotsFit, BitsFit, NextBit, NewSlots;
    TickFits(s);
    InStep(s);
    TickKeepsSlots(s);
    if s.t.wave != START {
      OtherTicksFit(s);
    } else if s.t.preambles > 0 {
      PreambleFits(s);
    } else if s.frames == [] {
      BootFits(s);
    } else {
      BodyFits(s);
    }
  }

  lemma OtherTicksFit(s: System)
    requires Typed(s.t) && LevelsFit(s) && BitsFit(s) && s.t.wave != START
    ensures BitsFit(Interrupt(s))
  {
    hide ByteBits, Framed, Body;
  }

  lemma WriteKeepsGood(s: System)
    requires Good(s)
    ensures Good(Write(s))
  {
    hide SlotsFit, WriterFits, LevelsFit, BitsFit;
    WriteKeepsWriter(s);
    WriteKeepsSlots(s);
    WriteKeepsSignal(s);
  }

  /** The main loop touches nothing that the interrupt is sending. */
  lemma WriteKeepsSignal(s: System)
    requires Typed(s.t) && Typed(Write(s).t)
    ensures LevelsFit(s) ==> LevelsFit(Write(s))
    ensures BitsFit(s) ==> BitsFit(Write(s))
  {
    hide Before, Ones, Body, Levels, Booting, XorBytes, Sealed;
    var t, u := s.t, Write(s).t;
    assert u == t.(pending := u.pending, pendingLength := u.pendingLength, pendingRepeats := u.pendingRepeats,
      isPending := u.isPending);
    SameSignal(t, u, s.sent, s.frames);
  }

  lemma SameSignal(t: Track, u: Track, sent: seq<bool>, frames: seq<seq<byte>>)
    requires Typed(t) && Typed(u)
    requires u == t.(pending := u.pending, pendingLength := u.pendingLength, pendingRepeats := u.pendingRepeats,
      isPending := u.isPending)
    ensures Booting(t, sent) == Booting(u, sent) && Before(frames, t) == Before(frames, u)
    ensures frames != [] ==> Before(Front(frames), t) == Before(Front(frames), u)
    ensures t.bytes < t.length ==> Sent(t) == Sent(u)
  {
  }

  lemma StepKeepsGood(s: System, e: Event)
    requires Good(s)
    ensures Good(Do(s, e))
  {
    match e
    case Tick => TickKeepsGood(s);
    case Call(_, _) => hide ByteBits, Framed, Body, Checksum, Expand, Real, Copies;
    case Go => WriteKeepsGood(s);
  }

  /** Main result: in every interleaving of interrupts and statements of the main loop, levels, bits,
      packets begun and packets published fit together. */
  lemma {:induction false} RunsAreGood(main: bool, events: seq<Event>)
    ensures Good(RunFrom(main, events))
    decreases |events|
  {
    if events == [] {
      StartIsGood(main);
    } else {
      RunsAreGood(main, events[..|events| - 1]);
      StepKeepsGood(RunFrom(main, events[..|events| - 1]), events[|events| - 1]);
    }
  }

  // ---------- What a receiver on the track gets ----------

  lemma BootIsNoPacket()
    ensures Read(Silent(0), ByteBits(BOOT)) == Silent(8)
  {
    BootBits();
    hide ByteBits;
    var bits := [false] + Ones(8);
    ReadSum(Silent(0), [false], Ones(8));
    assert [false][..0] == [];
    assert Read(Silent(0), [false]) == Silent(0);
    ReadOnes(Silent(0), 8);
  }

  lemma BootBits()
    ensures ByteBits(BOOT) == [false] + Ones(8)
  {
    assert Shr(255, 1) == 127;
    assert Shr(255, 2) == 63;
    assert Shr(255, 3) == 31;
    assert Shr(255, 4) == 15;
    assert Shr(255, 5) == 7;
    assert Shr(255, 6) == 3;
    assert Shr(255, 7) == 1;
  }

  lemma ReadsAll(frames: seq<seq<byte>>, required: nat, k: nat)
    requires required > MIN_PREAMBLE && k > 0 && forall i | 0 <= i < |frames| :: frames[i] != []
    ensures Read(Silent(0), ByteBits(BOOT) + Framed(frames, required) + Ones(k)).packets == frames
  {
    hide Read, ByteBits, Framed;
    var f := Framed(frames, required);
    BootIsNoPacket();
    ReadSum(Silent(0), ByteBits(BOOT), f + [true]);
    FramedReadsBack(frames, required, 8);
    ReadSum(Silent(0), ByteBits(BOOT) + (f + [true]), Ones(k - 1));
    ReadOnes(Read(Silent(8), f + [true]), k - 1);
    assert ByteBits(BOOT) + f + Ones(k) == ByteBits(BOOT) + (f + [true]) + Ones(k - 1);
  }

  /** Main result: between packets, a receiver on the pin has read exactly the packets begun so far. */
  lemma PinCarriesPackets(main: bool, events: seq<Event>)
    requires var t := RunFrom(main, events).t; t.wave == START && 1 < t.preambles < t.required
    ensures var s := RunFrom(main, events);
      && Listen(s.levels) == Ear(Between, s.sent)
      && Read(Silent(0), Listen(s.levels).bits).packets == s.frames
  {
    RunsAreGood(main, events);
    hide Good, RunFrom, SlotsFit, WriterFits, Read, Framed;
    var s := RunFrom(main, events);
    GoodParts(s);
    LevelsAreHeard(s.sent);
    ReadsAll(s.frames, s.t.required, s.t.required - s.t.preambles);
  }

  /** And what is on the track by then is the boot byte, each packet behind the stop bit of the one before it and a
      preamble of 16 ones, or 22 on the programming track, and the ones so far of the next preamble. */
  lemma PreamblesAreFull(main: bool, events: seq<Event>)
    requires var t := RunFrom(main, events).t; t.wave == START && 1 < t.preambles < t.required
    ensures var s, n := RunFrom(main, events), if main then 16 else 22;
      && s.t.preambles <= n
      && Listen(s.levels).bits == ByteBits(BOOT) + Framed(s.frames, 1 + n) + Ones(1 + n - s.t.preambles)
  {
    RunsAreGood(main, events);
    TrackStays(main, events);
    hide Good, RunFrom, SlotsFit, WriterFits, Framed;
    var s := RunFrom(main, events);
    GoodParts(s);
    LevelsAreHeard(s.sent);
  }

  lemma GoodParts(s: System)
    requires Good(s)
    ensures Typed(s.t) && LevelsFit(s) && BitsFit(s) && SlotsFit(s)
  {
  }

  /** Main result: what the main loop publishes is sent whole and in order, each packet its repeats and
      one times in a row, with nothing but single idle or reset packets in between. */
  lemma PublishedIsSent(main: bool, events: seq<Event>)
    ensures var s := RunFrom(main, events);
      && Typed(s.t)
      && Real(s.log) + Offered(s.t) == s.published
      && (forall i | 0 <= i < |s.log| :: GoodSlot(main, s.log[i]))
      && (s.log == [] ==> s.frames == [])
      && (s.log != [] ==> s.frames + Copies(Last(s.log).packet, s.t.repeats) == Expand(s.log))
  {
    RunsAreGood(main, events);
    TrackStays(main, events);
  }

  lemma {:induction false} TrackStays(main: bool, events: seq<Event>)
    ensures var t := RunFrom(main, events).t; t.main == main && t.required == if main then 17 else 23
    decreases |events|
  {
    if events != [] {
      hide Do, Typed;
      TrackStays(main, events[..|events| - 1]);
      if Typed(RunFrom(main, events[..|events| - 1]).t) {
        StepKeepsTrack(RunFrom(main, events[..|events| - 1]), events[|events| - 1]);
      }
    }
  }

  lemma StepKeepsTrack(s: System, e: Event)
    requires Typed(s.t)
    ensures Do(s, e).t.main == s.t.main && Do(s, e).t.required == s.t.required
  {
  }

  /** Main result: whenever the interrupt begins a packet, it is the one before again if repeats of that are left,
      else the one that has been published and not begun, and a filler only if there is neither. */
  lemma PublishedIsNext(main: bool, events: seq<Event>)
    requires var s := RunFrom(main, events); Typed(s.t) && Interrupt(s).frames != s.frames
    ensures var s := RunFrom(main, events);
      var v := Interrupt(s);
      if s.t.repeats > 0 then
        s.log != [] && v.log == s.log && v.frames == s.frames + [Last(s.log).packet] && v.t.repeats == s.t.repeats - 1
      else if Offered(s.t) != [] then
        && v.log == s.log + Offered(s.t) && v.frames == s.frames + [Offered(s.t)[0].packet]
        && Offered(v.t) == [] && v.t.repeats == Offered(s.t)[0].times - 1
      else v.log != [] && v.log == s.log + [Last(v.log)] && Last(v.log).filler
  {
    hide Checksum, NextBit, Expand, Copies, Real, BitsFit, LevelsFit, WriterFits;
    RunsAreGood(main, events);
  }

  // ---------- The main loop's calls ----------

  /** The packets that schedulePacket has been called for, one call at a time. */
  function Called(main: bool, events: seq<Event>): seq<Slot> {
    if events == [] then []
    else
      var e := events[|events| - 1];
      Called(main, events[..|events| - 1]) +
      if e.Call? && RunFrom(main, events[..|events| - 1]).w.Away? && |e.buffer| <= 5
      then [Slot(Sealed(e.buffer), e.repeats + 1, false)] else []
  }

  /** The call that is not finished. */
  function Unfinished(w: Writer): seq<Slot> {
    if w.Away? then [] else [Slot(Sealed(w.buffer), w.repeats + 1, false)]
  }

  lemma StepPublishes(s: System, e: Event)
    requires Typed(s.t) && WriterFits(s)
    ensures Do(s, e).published + Unfinished(Do(s, e).w) == s.published + Unfinished(s.w) +
      if e.Call? && s.w.Away? && |e.buffer| <= 5 then [Slot(Sealed(e.buffer), e.repeats + 1, false)] else []
  {
    hide Checksum, XorBytes, Sealed;
  }

  /** Main result: every call is published exactly as it was made, in order, sealed with its checksum. */
  lemma {:induction false} CalledIsPublished(main: bool, events: seq<Event>)
    ensures var s := RunFrom(main, events); Called(main, events) == s.published + Unfinished(s.w)
    decreases |events|
  {
    if events != [] {
      hide *;
      CalledIsPublished(main, events[..|events| - 1]);
      LastCall(main, events);
      StepPublishes(RunFrom(main, events[..|events| - 1]), events[|events| - 1]);
    }
  }

  lemma LastCall(main: bool, events: seq<Event>)
    requires events != []
    ensures var s, e := RunFrom(main, events[..|events| - 1]), events[|events| - 1];
      && Typed(s.t) && WriterFits(s) && RunFrom(main, events) == Do(s, e)
      && Called(main, events) == Called(main, events[..|events| - 1]) +
           if e.Call? && s.w.Away? && |e.buffer| <= 5 then [Slot(Sealed(e.buffer), e.repeats + 1, false)] else []
  {
    hide Do, SlotsFit, LevelsFit, BitsFit, Sealed, WriterFits;
    RunsAreGood(main, events[..|events| - 1]);
  }

  /** How many statements a call still takes. */
  function StepsLeft(w: Writer): nat {
    match w
    case Away => 0
    case Waiting(buffer, _) => |buffer| + 5
    case Filling(buffer, _, b, _) => if b <= |buffer| then |buffer| - b + 4 else 4
    case Filled(_, _) => 3
    case Sized(_, _) => 2
    case Counted(_, _) => 1
  }

  /** It makes one of them at a time, unless it has to wait for the packet before to be begun. */
  lemma CallGoesOn(s: System)
    requires Typed(s.t) && WriterFits(s) && !s.w.Away? && !(s.w.Waiting? && s.t.isPending)
    ensures StepsLeft(Write(s).w) == StepsLeft(s.w) - 1
  {
    hide Checksum, XorBytes;
  }
}

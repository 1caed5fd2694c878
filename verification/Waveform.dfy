/** DCCWaveform.cpp: the interrupt that turns packets into levels, and the main loop that hands it
    packets, in every interleaving. */
module Waveform {
  import opened Bytes
  import opened DccSignal

  const MAX_PACKET_SIZE: nat := 5
  const IDLE: seq<byte> := [0xFF, 0x00, 0xFF]
  const RESET: seq<byte> := [0x00, 0x00, 0x00]
  const PREAMBLE_BITS_MAIN: nat := 16
  const PREAMBLE_BITS_PROG: nat := 22

  // ---------- The checksum ----------

  lemma {:induction false} XorIsByte(a: nat, b: nat, k: nat)
    requires a < Pow2(k) && b < Pow2(k)
    ensures Xor(a, b) < Pow2(k)
    decreases k
  {
    if k > 0 {
      XorIsByte(a / 2, b / 2, k - 1);
    }
  }

  lemma {:induction false} XorWithItself(a: nat)
    ensures Xor(a, a) == 0
  {
    if a > 0 {
      XorWithItself(a / 2);
      assert (a % 2 + a % 2) % 2 == 0;
    }
  }

  function XorBytes(a: byte, b: byte): byte {
    assert Pow2(8) == 256;
    XorIsByte(a, b, 8);
    Xor(a, b)
  }

  function Checksum(bytes: seq<byte>): byte {
    if bytes == [] then 0 else XorBytes(Checksum(bytes[..|bytes| - 1]), bytes[|bytes| - 1])
  }

  /** The packet that goes out for these bytes. */
  function Sealed(bytes: seq<byte>): seq<byte> {
    bytes + [Checksum(bytes)]
  }

  /** A decoder that xors all bytes of a packet gets zero. */
  lemma SealedChecks(bytes: seq<byte>)
    ensures Checksum(Sealed(bytes)) == 0
  {
    assert Sealed(bytes)[..|bytes|] == bytes;
    XorWithItself(Checksum(bytes));
  }

  // ---------- The track ----------

  datatype Wave = START | MID_1 | HIGH_0 | MID_0 | LOW_0 | PENDING

  /** stateTransform */
  function Transform(w: Wave): Wave {
    match w
    case START => PENDING
    case MID_1 => START
    case HIGH_0 => MID_0
    case MID_0 => LOW_0
    case LOW_0 => START
    case PENDING => PENDING
  }

  /** signalTransform */
  function Signal(w: Wave): bool {
    match w
    case START => HIGH
    case MID_1 => LOW
    case HIGH_0 => HIGH
    case MID_0 => LOW
    case LOW_0 => LOW
    case PENDING => LOW
  }

  /** The fields of DCCWaveform. */
  datatype Track = Track(
    main: bool, required: nat,
    wave: Wave, preambles: nat, bits: nat, bytes: nat,
    packet: seq<byte>, length: nat, repeats: nat,
    pending: seq<byte>, pendingLength: nat, pendingRepeats: nat, isPending: bool)

  predicate Typed(t: Track) {
    |t.packet| == |t.pending| == MAX_PACKET_SIZE + 1 && t.length <= 6 && t.pendingLength <= 6 && t.bits <= 8
      && t.bytes < 6
  }

  /** A track after its constructor; static storage starts as zeros. */
  function NewTrack(main: bool): Track {
    Track(main, (if main then PREAMBLE_BITS_MAIN else PREAMBLE_BITS_PROG) + 1,
          START, 0, 0, 0, IDLE + [0, 0, 0], 0, 0, [0, 0, 0, 0, 0, 0], 0, 0, false)
  }

  /** promotePendingPacket */
  function Promote(t: Track): (u: Track)
    requires Typed(t)
    ensures Typed(u)
  {
    if t.repeats > 0 then t.(repeats := t.repeats - 1)
    else if t.isPending then
      t.(packet := t.pending, length := t.pendingLength, repeats := t.pendingRepeats, isPending := false)
    else t.(packet := (if t.main then IDLE else RESET) + t.packet[3..], length := 3, repeats := 0)
  }

  /** The bit that interrupt2 chooses. */
  function NextBit(t: Track): bool
    requires Typed(t)
  {
    t.preambles > 0 || (t.bits > 0 && Bit(t.packet[t.bytes], 8 - t.bits))
  }

  /** interrupt2, apart from the wave state. */
  function Advance(t: Track): (u: Track)
    requires Typed(t)
    ensures Typed(u)
  {
    if t.preambles > 0 then
      var u := t.(preambles := t.preambles - 1);
      if u.preambles == 1 then Promote(u) else u
    else if t.bits < 8 then t.(bits := t.bits + 1)
    else if t.bytes + 1 >= t.length then t.(bits := 0, bytes := 0, preambles := t.required)
    else t.(bits := 0, bytes := t.bytes + 1)
  }

  // ---------- The main loop in schedulePacket ----------

  /** Where the main loop is in schedulePacket, if it is in there. */
  datatype Writer =
    | Away
    | Waiting(buffer: seq<byte>, repeats: nat)
    | Filling(buffer: seq<byte>, repeats: nat, b: nat, checksum: byte)
    | Filled(buffer: seq<byte>, repeats: nat)
    | Sized(buffer: seq<byte>, repeats: nat)
    | Counted(buffer: seq<byte>, repeats: nat)

  /** A packet that is sent some times in a row; fillers are the idle or reset packets in between. */
  datatype Slot = Slot(packet: seq<byte>, times: nat, filler: bool)

  /** The machine with its history: the levels of the pin, the bits chosen, the packets begun, the slots
      they belong to, and what the main loop has published. */
  datatype System = System(t: Track, w: Writer,
    levels: seq<bool>, sent: seq<bool>, frames: seq<seq<byte>>, log: seq<Slot>, published: seq<Slot>)

  datatype Event = Tick | Call(buffer: seq<byte>, repeats: nat) | Go

  function NewSystem(main: bool): System {
    System(NewTrack(main), Away, [], [], [], [], [])
  }

  /** The slot that a promotion begins, if it begins one. */
  function NewSlots(t: Track): seq<Slot>
    requires Typed(t)
  {
    if t.repeats > 0 then []
    else if t.isPending then [Slot(t.pending[..t.pendingLength], t.pendingRepeats + 1, false)]
    else [Slot(if t.main then IDLE else RESET, 1, true)]
  }

  /** The interrupt for one track. */
  function Interrupt(s: System): System
    requires Typed(s.t)
  {
    var t := s.t;
    var levels := s.levels + [Signal(t.wave)];
    if Transform(t.wave) != PENDING then s.(t := t.(wave := Transform(t.wave)), levels := levels)
    else
      var u := Advance(t);
      var promoted := t.preambles == 2;
      System(u.(wave := if NextBit(t) then MID_1 else HIGH_0), s.w, levels, s.sent + [NextBit(t)],
             if promoted then s.frames + [u.packet[..u.length]] else s.frames,
             if promoted then s.log + NewSlots(t) else s.log, s.published)
  }

  /** One statement of schedulePacket. */
  function Write(s: System): System
    requires Typed(s.t)
  {
    match s.w
    case Away => s
    case Waiting(buffer, repeats) => if s.t.isPending then s else s.(w := Filling(buffer, repeats, 0, 0))
    case Filling(buffer, repeats, b, checksum) =>
      if b < |buffer| && b < 6 then
        s.(w := Filling(buffer, repeats, b + 1, XorBytes(checksum, buffer[b])),
          t := s.t.(pending := s.t.pending[b := buffer[b]]))
      else if |buffer| < 6 then
        s.(w := Filled(buffer, repeats), t := s.t.(pending := s.t.pending[|buffer| := checksum]))
      else s
    case Filled(buffer, repeats) => s.(w := Sized(buffer, repeats), t := s.t.(pendingLength := |buffer| + 1))
    case Sized(buffer, repeats) => s.(w := Counted(buffer, repeats), t := s.t.(pendingRepeats := repeats))
    case Counted(buffer, repeats) =>
      s.(w := Away, t := s.t.(isPending := true), published := s.published + [Slot(Sealed(buffer), repeats + 1, false)])
  }

  function Do(s: System, e: Event): System
    requires Typed(s.t)
  {
    match e
    case Tick => Interrupt(s)
    case Call(buffer, repeats) =>
      if s.w.Away? && |buffer| <= MAX_PACKET_SIZE then s.(w := Waiting(buffer, repeats)) else s
    case Go => Write(s)
  }

  // ---------- The interrupt in place ----------

  /** One track, with its two packet buffers. */
  class DCCWaveform {
    const isMainTrack: bool
    const requiredPreambles: nat
    const transmitPacket: array<byte>
    const pendingPacket: array<byte>
    var state: Wave
    var remainingPreambles: nat
    var bitsSent: nat
    var bytesSent: nat
    var transmitLength: nat
    var transmitRepeats: nat
    var pendingLength: nat
    var pendingRepeats: nat
    var packetPending: bool

    ghost function Abs(): Track
      reads this, transmitPacket, pendingPacket
    {
      Track(isMainTrack, requiredPreambles, state, remainingPreambles, bitsSent, bytesSent,
            transmitPacket[..], transmitLength, transmitRepeats,
            pendingPacket[..], pendingLength, pendingRepeats, packetPending)
    }

    ghost predicate Valid()
      reads this, transmitPacket, pendingPacket
    {
      transmitPacket != pendingPacket && Typed(Abs())
    }

    constructor (preambleBits: nat, isMain: bool)
      ensures Valid() && fresh(transmitPacket) && fresh(pendingPacket)
      ensures preambleBits == (if isMain then PREAMBLE_BITS_MAIN else PREAMBLE_BITS_PROG) ==> Abs() == NewTrack(isMain)
    {
      isMainTrack, requiredPreambles := isMain, preambleBits + 1;
      transmitPacket := new byte[6](i requires 0 <= i < 6 => if i < 3 then IDLE[i] else 0);
      pendingPacket := new byte[6](_ => 0);
      state, remainingPreambles, bitsSent, bytesSent := START, 0, 0, 0;
      transmitLength, transmitRepeats, pendingLength, pendingRepeats, packetPending := 0, 0, 0, 0, false;
      new;
      assert transmitPacket[..] == IDLE + [0, 0, 0];
      assert pendingPacket[..] == [0, 0, 0, 0, 0, 0];
    }

    /** memcpy to the transmit buffer */
    method CopyToTransmit(source: seq<byte>)
      requires |source| <= transmitPacket.Length
      modifies transmitPacket
      ensures transmitPacket[..] == source + old(transmitPacket[..])[|source|..]
    {
      var k := 0;
      while k < |source|
        invariant k <= |source|
        invariant forall i | 0 <= i < k :: transmitPacket[i] == source[i]
        invariant forall i | k <= i < transmitPacket.Length :: transmitPacket[i] == old(transmitPacket[i])
      {
        transmitPacket[k] := source[k];
        k := k + 1;
      }
    }

    method PromotePendingPacket()
      requires Valid()
      modifies this`transmitLength, this`transmitRepeats, this`packetPending, transmitPacket
      ensures Valid() && Abs() == Promote(old(Abs()))
    {
      if transmitRepeats > 0 {
        transmitRepeats := transmitRepeats - 1;
        return;
      }
      if packetPending {
        CopyToTransmit(pendingPacket[..]);
        transmitLength := pendingLength;
        transmitRepeats := pendingRepeats;
        packetPending := false;
        return;
      }
      CopyToTransmit(if isMainTrack then IDLE else RESET);
      transmitLength := 3;
      transmitRepeats := 0;
    }

    method Interrupt2()
      requires Valid()
      modifies this, transmitPacket
      ensures Valid() && Abs() == Advance(old(Abs())).(wave := if NextBit(old(Abs())) then MID_1 else HIGH_0)
    {
      hide Bit;
      if remainingPreambles > 0 {
        state := MID_1;
        remainingPreambles := remainingPreambles - 1;
        if remainingPreambles == 1 {
          PromotePendingPacket();
        }
        return;
      }
      state := if bitsSent > 0 && Bit(transmitPacket[bytesSent], 8 - bitsSent) then MID_1 else HIGH_0;
      bitsSent := bitsSent + 1;
      if bitsSent == 9 {
        bitsSent := 0;
        bytesSent := bytesSent + 1;
        if bytesSent >= transmitLength {
          bytesSent := 0;
          remainingPreambles := requiredPreambles;
        }
      }
    }

    /** The part of interruptHandler for one track. */
    method InterruptHandler() returns (level: bool)
      requires Valid()
      modifies this, transmitPacket
      ensures Valid() && level == Signal(old(state))
      ensures forall s: System | s.t == old(Abs()) ::
        Interrupt(s).t == Abs() && Interrupt(s).levels == s.levels + [level]
    {
      hide Advance, NextBit, NewSlots;
      level := Signal(state);
      state := Transform(state);
      if state == PENDING {
        SameButWave(old(Abs()));
        Interrupt2();
      }
    }

    /** schedulePacket once the wait for the pending buffer is over. */
    method FillPending(buffer: seq<byte>, repeats: nat)
      requires Valid() && !packetPending && |buffer| <= MAX_PACKET_SIZE
      modifies this`pendingLength, this`pendingRepeats, this`packetPending, pendingPacket
      ensures Valid() && packetPending && pendingRepeats == repeats && pendingLength == |buffer| + 1
      ensures pendingPacket[..pendingLength] == Sealed(buffer)
    {
      hide XorBytes;
      var checksum: byte := 0;
      var b := 0;
      while b < |buffer|
        invariant b <= |buffer| && checksum == Checksum(buffer[..b]) && pendingPacket[..b] == buffer[..b]
      {
        checksum := XorBytes(checksum, buffer[b]);
        pendingPacket[b] := buffer[b];
        assert buffer[..b + 1][..b] == buffer[..b];
        b := b + 1;
      }
      assert buffer[..b] == buffer;
      pendingPacket[b] := checksum;
      pendingLength := b + 1;
      pendingRepeats := repeats;
      packetPending := true;
    }
  }

  /** The wave state decides nothing about bits. */
  lemma SameButWave(t: Track)
    requires Typed(t)
    ensures var u := t.(wave := PENDING);
      Typed(u) && NextBit(u) == NextBit(t) && Advance(u) == Advance(t).(wave := PENDING)
  {
  }
}

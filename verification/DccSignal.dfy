/** The DCC signal of section A of NMRA S-9.2, from packets to bits to levels of the pin, with the
    receiver that reads it back. */
module DccSignal {
  import opened Bytes

  const HIGH: bool := true
  const LOW: bool := false

  // ---------- Bits as levels ----------

  /** A one is high and low for a tick each, a zero for two. */
  function Levels(bits: seq<bool>): seq<bool> {
    if bits == [] then []
    else Levels(bits[..|bits| - 1]) + if bits[|bits| - 1] then [HIGH, LOW] else [HIGH, HIGH, LOW, LOW]
  }

  /** Where in a bit the receiver is: before it, after one or two ticks of high, after the first tick
      of low in a zero, or out of step with the signal. */
  datatype Phase = Between | High1 | High2 | Low1 | Lost

  datatype Ear = Ear(phase: Phase, bits: seq<bool>)

  function Hear(e: Ear, level: bool): Ear {
    match e.phase
    case Between => Ear(if level == HIGH then High1 else Lost, e.bits)
    case High1 => if level == HIGH then Ear(High2, e.bits) else Ear(Between, e.bits + [true])
    case High2 => Ear(if level == HIGH then Lost else Low1, e.bits)
    case Low1 => if level == HIGH then Ear(Lost, e.bits) else Ear(Between, e.bits + [false])
    case Lost => e
  }

  /** The receiver of levels: any series of levels is whole bits in at most one way. */
  function Listen(levels: seq<bool>): Ear {
    if levels == [] then Ear(Between, []) else Hear(Listen(levels[..|levels| - 1]), levels[|levels| - 1])
  }

  lemma ListenOne(levels: seq<bool>, level: bool)
    ensures Listen(levels + [level]) == Hear(Listen(levels), level)
  {
    assert (levels + [level])[..|levels|] == levels;
  }

  lemma BitIsHeard(levels: seq<bool>, bit: bool)
    requires Listen(levels).phase == Between
    ensures Listen(levels + if bit then [HIGH, LOW] else [HIGH, HIGH, LOW, LOW])
      == Ear(Between, Listen(levels).bits + [bit])
  {
    hide Listen;
    ListenOne(levels, HIGH);
    if bit {
      ListenOne(levels + [HIGH], LOW);
      assert levels + [HIGH] + [LOW] == levels + [HIGH, LOW];
    } else {
      ListenOne(levels + [HIGH], HIGH);
      ListenOne(levels + [HIGH] + [HIGH], LOW);
      ListenOne(levels + [HIGH] + [HIGH] + [LOW], LOW);
      assert levels + [HIGH] + [HIGH] + [LOW] + [LOW] == levels + [HIGH, HIGH, LOW, LOW];
    }
  }

  /** The levels of any bits are heard as those bits. */
  lemma {:induction false} LevelsAreHeard(bits: seq<bool>)
    ensures Listen(Levels(bits)) == Ear(Between, bits)
    decreases |bits|
  {
    if bits != [] {
      var n := |bits| - 1;
      LevelsAreHeard(bits[..n]);
      BitIsHeard(Levels(bits[..n]), bits[n]);
      hide Listen;
      assert bits == bits[..n] + [bits[n]];
    }
  }

  // ---------- Packets as bits ----------

  /** A zero and eight bits, the highest first. */
  function ByteBits(b: byte): (r: seq<bool>)
    ensures |r| == 9
  {
    [false, Bit(b, 7), Bit(b, 6), Bit(b, 5), Bit(b, 4), Bit(b, 3), Bit(b, 2), Bit(b, 1), Bit(b, 0)]
  }

  function Body(packet: seq<byte>): (r: seq<bool>)
    ensures |r| == 9 * |packet|
  {
    if packet == [] then [] else Body(packet[..|packet| - 1]) + ByteBits(packet[|packet| - 1])
  }

  /** The bits of a body, by byte. */
  lemma {:induction false} BodyBit(packet: seq<byte>, k: nat, i: nat)
    requires k < |packet| && i < 9
    ensures 9 * k + i < |Body(packet)| && Body(packet)[9 * k + i] == ByteBits(packet[k])[i]
    decreases |packet|
  {
    hide ByteBits;
    if k < |packet| - 1 {
      BodyBit(packet[..|packet| - 1], k, i);
    }
  }

  function Ones(n: nat): (r: seq<bool>)
    ensures |r| == n && forall i | 0 <= i < n :: r[i]
  {
    seq(n, _ => true)
  }

  /** What a track sends for a series of packets: before each of them a preamble, whose first bit is
      the stop bit of the one before. */
  function Framed(packets: seq<seq<byte>>, preamble: nat): seq<bool> {
    if packets == [] then []
    else Framed(packets[..|packets| - 1], preamble) + Ones(preamble) + Body(packets[|packets| - 1])
  }

  // ---------- The receiver of packets ----------

  const MIN_PREAMBLE: nat := 10

  /** Reads packets: at least ten ones, then bytes that each start with a zero, then a one. */
  datatype Reader = Reader(
    ones: nat,              // ones in a row, before a packet
    inside: bool,
    count: nat,             // bits of the byte that is coming in, its leading zero included
    value: nat,             // and what they say
    packet: seq<byte>,      // bytes so far
    packets: seq<seq<byte>>)

  /** A reader that has heard nothing but some ones. */
  function Silent(ones: nat): Reader {
    Reader(ones, false, 0, 0, [], [])
  }

  /** One more bit. */
  function ReadBit(r: Reader, bit: bool): Reader {
    if !r.inside then
      if bit then r.(ones := r.ones + 1)
      else if r.ones >= MIN_PREAMBLE then Reader(0, true, 1, 0, [], r.packets)
      else r.(ones := 0)
    else if r.count == 0 then
      if bit then Reader(1, false, 0, 0, [], r.packets + [r.packet])
      else r.(count := 1, value := 0)
    else
      var v := 2 * r.value + if bit then 1 else 0;
      if r.count < 8 then r.(count := r.count + 1, value := v)
      else r.(count := 0, value := 0, packet := r.packet + [v % 256])
  }

  function Read(r: Reader, bits: seq<bool>): Reader {
    if bits == [] then r else ReadBit(Read(r, bits[..|bits| - 1]), bits[|bits| - 1])
  }

  lemma {:induction false} ReadSum(r: Reader, a: seq<bool>, b: seq<bool>)
    ensures Read(r, a + b) == Read(Read(r, a), b)
    decreases |b|
  {
    if b == [] {
      assert a + b == a;
    } else {
      assert (a + b)[..|a + b| - 1] == a + b[..|b| - 1];
      ReadSum(r, a, b[..|b| - 1]);
    }
  }

  lemma ReadOne(r: Reader, bits: seq<bool>, bit: bool)
    ensures Read(r, bits + [bit]) == ReadBit(Read(r, bits), bit)
  {
    assert (bits + [bit])[..|bits|] == bits;
  }

  /** Ones between packets are counted. */
  lemma {:induction false} ReadOnes(r: Reader, n: nat)
    requires !r.inside
    ensures Read(r, Ones(n)) == r.(ones := r.ones + n)
  {
    if n > 0 {
      assert Ones(n)[..n - 1] == Ones(n - 1);
      ReadOnes(r, n - 1);
    }
  }

  /** The reader at the start of a byte: inside a packet, or before one after a preamble. */
  predicate AtByte(r: Reader) {
    if r.inside then r.count == 0 else r.ones >= MIN_PREAMBLE && r.packet == []
  }

  /** The zero and `k` bits of a byte. */
  lemma {:induction false} ReadHighBits(r: Reader, b: byte, k: nat)
    requires AtByte(r) && k <= 7
    ensures Read(r, ByteBits(b)[..k + 1])
      == Reader(if r.inside then r.ones else 0, true, k + 1, Shr(b, 8 - k), r.packet, r.packets)
    decreases k
  {
    hide ByteBits;
    var bits := ByteBits(b);
    if k == 0 {
      LeadingZero(b);
      assert bits[..1] == [false];
      assert bits[..1][..0] == [];
      assert Pow2(8) == 256;
      ShrToNothing(b, 8);
    } else {
      ReadHighBits(r, b, k - 1);
      assert bits[..k + 1] == bits[..k] + [bits[k]];
      ReadOne(r, bits[..k], bits[k]);
      BitOf(b, k);
      Doubles(b, 8 - k);
    }
  }

  lemma LeadingZero(b: byte)
    ensures !ByteBits(b)[0]
  {
  }

  lemma BitOf(b: byte, k: nat)
    requires 0 < k <= 8
    ensures ByteBits(b)[k] == Bit(b, 8 - k)
  {
  }

  /** `v` shifted less is `v` shifted more, and a bit. */
  lemma Doubles(v: nat, n: nat)
    ensures Shr(v, n) == 2 * Shr(v, n + 1) + if Bit(v, n) then 1 else 0
  {
    ShrOnce(v, n + 1);
  }

  /** A byte is read back. */
  lemma ReadByte(r: Reader, b: byte)
    requires AtByte(r)
    ensures Read(r, ByteBits(b)) == Reader(if r.inside then r.ones else 0, true, 0, 0, r.packet + [b], r.packets)
  {
    hide Read, AtByte, ByteBits, Shr;
    var bits := ByteBits(b);
    ReadHighBits(r, b, 7);
    assert bits == bits[..8] + [bits[8]];
    ReadOne(r, bits[..8], bits[8]);
    BitOf(b, 8);
    LastBit(b);
  }

  lemma LastBit(b: byte)
    ensures (2 * Shr(b, 1) + if Bit(b, 0) then 1 else 0) == b
  {
    Doubles(b, 0);
    assert Shr(b, 0) == b;
  }

  lemma {:induction false} ReadBody(r: Reader, packet: seq<byte>)
    requires !r.inside && AtByte(r) && packet != []
    ensures Read(r, Body(packet)) == Reader(0, true, 0, 0, packet, r.packets)
    decreases |packet|
  {
    var n := |packet| - 1;
    hide ByteBits, ReadBit;
    if n == 0 {
      assert Body(packet) == ByteBits(packet[0]);
      ReadByte(r, packet[0]);
      assert packet == [] + [packet[0]];
    } else {
      ReadBody(r, packet[..n]);
      ReadSum(r, Body(packet[..n]), ByteBits(packet[n]));
      ReadByte(Reader(0, true, 0, 0, packet[..n], r.packets), packet[n]);
      assert packet == packet[..n] + [packet[n]];
    }
  }

  /** Main result: a receiver gets exactly the packets that were framed, in order, and the last one as
      soon as its stop bit is there. */
  lemma {:induction false} FramedReadsBack(packets: seq<seq<byte>>, preamble: nat, ones: nat)
    requires preamble > MIN_PREAMBLE && forall i | 0 <= i < |packets| :: packets[i] != []
    ensures Read(Silent(ones), Framed(packets, preamble) + [true]) ==
            Reader(if packets == [] then ones + 1 else 1, false, 0, 0, [], packets)
    decreases |packets|
  {
    hide Read, Body;
    var start := Silent(ones);
    if packets == [] {
      assert Framed(packets, preamble) + [true] == Ones(1);
      ReadOnes(start, 1);
    } else {
      var n := |packets| - 1;
      var before := Framed(packets[..n], preamble);
      FramedReadsBack(packets[..n], preamble, ones);
      var r := Reader(if n == 0 then ones + 1 else 1, false, 0, 0, [], packets[..n]);
      StopAndPreamble(before, preamble);
      ReadSum(start, before + [true], Ones(preamble - 1));
      ReadOnes(r, preamble - 1);
      ReadSum(start, before + Ones(preamble), Body(packets[n]));
      ReadBody(r.(ones := r.ones + preamble - 1), packets[n]);
      ReadOne(start, before + Ones(preamble) + Body(packets[n]), true);
      assert packets == packets[..n] + [packets[n]];
    }
  }

  /** The first one of a preamble is the stop bit of what was before. */
  lemma StopAndPreamble(before: seq<bool>, preamble: nat)
    requires preamble > 0
    ensures before + Ones(preamble) == (before + [true]) + Ones(preamble - 1)
  {
  }
}

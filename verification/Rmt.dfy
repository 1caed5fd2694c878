/** DCCRMT.cpp: packets as items of the ESP32's remote control transmitter, and the handshake between
    RMTfillData and the interrupt at the end of each loop of the transmitter, in every interleaving. */
module Rmt {
  import opened Bytes
  import opened DccSignal

  const MAX_DATA_BYTES: nat := 6          // MAX_PACKET_SIZE and the checksum
  const MAX_DATA_LEN: nat := 55           // DATA_LEN(MAX_DATA_BYTES)

  datatype Item = One | Zero | Eot

  // ---------- The encoding ----------

  function ItemOf(bit: bool): Item {
    if bit then One else Zero
  }

  /** Eight bits, the highest first, and a zero. */
  function ByteItems(b: byte): (r: seq<Item>)
    ensures |r| == 9
  {
    [ItemOf(Bit(b, 7)), ItemOf(Bit(b, 6)), ItemOf(Bit(b, 5)), ItemOf(Bit(b, 4)),
     ItemOf(Bit(b, 3)), ItemOf(Bit(b, 2)), ItemOf(Bit(b, 1)), ItemOf(Bit(b, 0)), Zero]
  }

  function Bytewise(packet: seq<byte>): (r: seq<Item>)
    ensures |r| == 9 * |packet|
  {
    if packet == [] then [] else Bytewise(packet[..|packet| - 1]) + ByteItems(packet[|packet| - 1])
  }

  /** What RMTfillData leaves in `data`: the last zero is made a one, and the end is marked. */
  function Items(packet: seq<byte>): seq<Item>
    requires packet != []
  {
    Bytewise(packet)[9 * |packet| - 1 := One] + [Eot]
  }

  /** The bits that the transmitter makes of items, up to the end marker. */
  function Bits(items: seq<Item>): seq<bool> {
    if items == [] || items[0] == Eot then [] else [items[0] == One] + Bits(items[1..])
  }

  /** One loop of the transmitter: the preamble ones, the zero that starts the packet, and its items. */
  function Loop(preamble: nat, items: seq<Item>): seq<bool> {
    Ones(preamble) + [false] + Bits(items)
  }

  /** Items before the end marker are bits one by one. */
  lemma {:induction false} BitsBeforeEnd(items: seq<Item>, after: seq<Item>)
    requires Eot !in items
    ensures var b := Bits(items + [Eot] + after);
      |b| == |items| && forall k | 0 <= k < |items| :: b[k] == (items[k] == One)
    decreases |items|
  {
    var all := items + [Eot] + after;
    if items != [] {
      assert all[1..] == items[1..] + [Eot] + after;
      BitsBeforeEnd(items[1..], after);
    }
  }

  lemma {:induction false} BytewiseAt(packet: seq<byte>, k: nat, i: nat)
    requires k < |packet| && i < 9
    ensures 9 * k + i < |Bytewise(packet)| && Bytewise(packet)[9 * k + i] == ByteItems(packet[k])[i]
    decreases |packet|
  {
    hide ByteItems;
    if k < |packet| - 1 {
      BytewiseAt(packet[..|packet| - 1], k, i);
    }
  }

  /** An item is the bit that follows it by one in the packet. */
  lemma ItemIsNextBit(b: byte, i: nat)
    requires i < 8
    ensures ByteItems(b)[i] == ItemOf(ByteBits(b)[i + 1])
    ensures ByteItems(b)[8] == Zero && !ByteBits(b)[0]
  {
    hide Bit;
  }

  /** Item `j` is bit `j` + 1 of the body. */
  lemma ItemIsBodyBit(packet: seq<byte>, j: nat)
    requires j + 1 < 9 * |packet|
    ensures Bytewise(packet)[j] == ItemOf(Body(packet)[j + 1])
  {
    hide Bytewise, Body, ByteItems, ByteBits;
    var k, i := j / 9, j % 9;
    BytewiseAt(packet, k, i);
    if i < 8 {
      BodyBit(packet, k, i + 1);
      ItemIsNextBit(packet[k], i);
    } else {
      BodyBit(packet, k + 1, 0);
      ItemIsNextBit(packet[k], 0);
      ItemIsNextBit(packet[k + 1], 0);
    }
  }

  lemma BodyStarts(packet: seq<byte>)
    requires packet != []
    ensures !Body(packet)[0]
  {
    hide Body;
    BodyBit(packet, 0, 0);
    ItemIsNextBit(packet[0], 0);
  }

  lemma NoEnd(packet: seq<byte>)
    requires packet != []
    ensures Eot !in Bytewise(packet)[9 * |packet| - 1 := One]
  {
    hide Bytewise;
    forall j | 0 <= j < 9 * |packet| - 1
      ensures Bytewise(packet)[j] != Eot
    {
      ItemIsBodyBit(packet, j);
    }
  }

  /** Main result on the encoding: a loop of the transmitter is the preamble, the packet with the start
      bits of its bytes, and a stop bit. */
  lemma LoopIsFrame(preamble: nat, packet: seq<byte>)
    requires packet != []
    ensures Loop(preamble, Items(packet)) == Ones(preamble) + Body(packet) + [true]
  {
    hide Bits, Body, Bytewise;
    var items := Bytewise(packet)[9 * |packet| - 1 := One];
    NoEnd(packet);
    BitsBeforeEnd(items, []);
    BodyStarts(packet);
    var b := Bits(Items(packet));
    assert Items(packet) == items + [Eot] + [];
    forall j | 0 <= j < 9 * |packet|
      ensures ([false] + b)[j] == Body(packet)[j]
    {
      if j > 0 {
        ItemIsBodyBit(packet, j - 1);
      }
    }
    assert ([false] + b) == Body(packet) + [true];
    assert Loop(preamble, Items(packet)) == Ones(preamble) + ([false] + b);
  }

  /** Loop after loop. */
  function Loops(preamble: nat, packets: seq<seq<byte>>): seq<bool>
    requires forall i | 0 <= i < |packets| :: packets[i] != []
  {
    if packets == [] then []
    else Loops(preamble, packets[..|packets| - 1]) + Loop(preamble, Items(packets[|packets| - 1]))
  }

  lemma {:induction false} LoopsAreFramed(preamble: nat, packets: seq<seq<byte>>)
    requires forall i | 0 <= i < |packets| :: packets[i] != []
    ensures [true] + Loops(preamble, packets) == Framed(packets, preamble + 1) + [true]
    decreases |packets|
  {
    hide Loop, Items, Body, Ones;
    if packets != [] {
      var n := |packets| - 1;
      LoopsAreFramed(preamble, packets[..n]);
      LoopIsFrame(preamble, packets[n]);
      StopAndPreamble(Framed(packets[..n], preamble + 1), preamble + 1);
      Moved(Loops(preamble, packets[..n]), Framed(packets[..n], preamble + 1), Ones(preamble), Body(packets[n]));
    }
  }

  /** A one that moves from the front of the loops to their end. */
  lemma Moved(loops: seq<bool>, framed: seq<bool>, ones: seq<bool>, body: seq<bool>)
    requires [true] + loops == framed + [true]
    ensures [true] + (loops + (ones + body + [true])) == framed + [true] + ones + body + [true]
  {
    assert [true] + (loops + (ones + body + [true])) == ([true] + loops) + ones + body + [true];
  }

  /** Main result: a receiver of the transmitter's loops, after a stop bit, reads back their packets. */
  lemma LoopsReadBack(preamble: nat, packets: seq<seq<byte>>)
    requires preamble >= MIN_PREAMBLE && forall i | 0 <= i < |packets| :: packets[i] != []
    ensures Read(Silent(0), [true] + Loops(preamble, packets)).packets == packets
  {
    LoopsAreFramed(preamble, packets);
    FramedReadsBack(packets, preamble + 1, 0);
  }
}

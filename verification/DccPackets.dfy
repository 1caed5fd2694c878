/** The packets that DCC.cpp builds for locos and accessories, and how a decoder reads them:
    section B of NMRA S-9.2 and sections 2.3.2, 2.3.4 to 2.3.6 and 2.4.1 of NMRA S-9.2.1. */
module DccPackets {
  import opened Bytes

  const HIGHEST_SHORT_ADDR: nat := 127
  const SET_SPEED: byte := 0x3F

  // ---------- Building ----------

  // Where C++ ors bits that cannot overlap, the model adds; `x | 0xC0` is 0xC0 + x % 64 for any byte.

  function Address(cab: uint16): seq<byte> {
    if cab > HIGHEST_SHORT_ADDR then [0xC0 + HighByte(cab) % 64, LowByte(cab)] else [LowByte(cab)]
  }

  /** The 28-step speed number that setThrottleDCC makes of a 128-step one: 0 and 1 are stop and
      emergency stop, 2 to 127 become 1 to 28 in the interleaved code of the standard. */
  function Code28(speed128: nat): (code: nat)
    requires speed128 < 128
    ensures code < 32
    ensures code % 16 == 1 <==> speed128 == 1
  {
    if speed128 <= 1 then speed128
    else
      var speed28 := (speed128 * 10 + 36) / 46;
      (speed28 + 3) / 2 + (if speed28 % 2 == 1 then 0 else 16)
  }

  function SpeedInstruction(speedCode: byte, speedSteps: byte): seq<byte> {
    if speedSteps <= 28 then
      [0x40 + Code28(speedCode % 128) + (if speedCode >= 128 then 0x20 else 0)]
    else [SET_SPEED, speedCode]
  }

  function SpeedPacket(cab: uint16, speedCode: byte, speedSteps: byte): seq<byte> {
    Address(cab) + SpeedInstruction(speedCode, speedSteps)
  }

  /** DCC::setAccessory with its bytes 10AAAAAA 1AAA1PPG; refused addresses and ports send nothing. */
  function AccessoryPacket(address: nat, port: nat, gate: bool): seq<byte>
    requires address < 512 && port < 4
  {
    var base := (address / 64 % 8) * 16 + port % 4 * 2 + (if gate then 1 else 0);
    [address % 64 + 128, InvertTop(base)]
  }

  /** `^ 0xF8` on a byte below 128 whose bit 3 is clear. */
  function InvertTop(b: nat): byte
    requires b < 128 && b % 16 < 8
  {
    0xF8 - b / 16 * 16 + b % 16
  }

  // ---------- Reading ----------

  datatype Motion = EmergencyStop | SpeedStep(code: nat) | NotSpeed

  /** The instruction part of a packet for a loco decoder; none in a packet for accessories. */
  function Instruction(packet: seq<byte>): seq<byte> {
    if packet == [] then []
    else if packet[0] < 128 then packet[1..]
    else if packet[0] >= 0xC0 then packet[if |packet| > 1 then 2 else 1..]
    else []
  }

  /** What a packet tells a loco to do: 00111111 DSSSSSSS or 01DCSSSS, code 1 being emergency stop. */
  function MotionOf(packet: seq<byte>): Motion {
    var i := Instruction(packet);
    if |i| == 2 && i[0] == SET_SPEED then
      (if i[1] % 128 == 1 then EmergencyStop else SpeedStep(i[1]))
    else if |i| == 1 && i[0] / 64 == 1 then
      (if i[0] % 16 == 1 then EmergencyStop else SpeedStep(i[0]))
    else NotSpeed
  }

  /** A speed instruction other than emergency stop. */
  predicate Moves(packet: seq<byte>) {
    MotionOf(packet).SpeedStep?
  }

  /** Bit by bit, the code that a decoder reads is the one that was meant: emergency stop if and
      only if the speed code says so, in 28 and in 128 steps. */
  lemma EstopIsEstop(cab: uint16, speedCode: byte, speedSteps: byte)
    ensures MotionOf(SpeedPacket(cab, speedCode, speedSteps)) != NotSpeed
    ensures MotionOf(SpeedPacket(cab, speedCode, speedSteps)) == EmergencyStop <==> speedCode % 128 == 1
    ensures |SpeedPacket(cab, speedCode, speedSteps)| <= 4
  {
    hide Address, Instruction, SpeedInstruction;
    var i := SpeedInstruction(speedCode, speedSteps);
    InstructionIsEstop(speedCode, speedSteps);
    InstructionIsBehindAddress(cab, i);
  }

  lemma InstructionIsBehindAddress(cab: uint16, i: seq<byte>)
    ensures Instruction(Address(cab) + i) == i && |Address(cab)| <= 2
  {
    var p := Address(cab) + i;
    assert if cab > HIGHEST_SHORT_ADDR then p[0] >= 0xC0 && p[2..] == i else p[0] < 128 && p[1..] == i;
  }

  lemma InstructionIsEstop(speedCode: byte, speedSteps: byte)
    ensures var i := SpeedInstruction(speedCode, speedSteps);
      if speedSteps <= 28 then |i| == 1 && i[0] / 64 == 1 && (i[0] % 16 == 1 <==> speedCode % 128 == 1)
      else i == [SET_SPEED, speedCode]
  {
    hide Code28;
    var code := Code28(speedCode % 128);
    assert (0x40 + code + 0x20) % 16 == code % 16 == (0x40 + code) % 16;
  }

  lemma AccessoryDoesNotMove(address: nat, port: nat, gate: bool)
    requires address < 512 && port < 4
    ensures Instruction(AccessoryPacket(address, port, gate)) == []
  {
  }

  // ---------- What a loco decoder hears ----------

  datatype Heard = NotForLocos | ForLoco(cab: nat, instruction: seq<byte>)

  /** 0AAAAAAA, or 11AAAAAA AAAAAAAA with the first byte 192 to 231. */
  function HeardBy(packet: seq<byte>): Heard {
    if packet == [] then NotForLocos
    else if packet[0] < 128 then ForLoco(packet[0], packet[1..])
    else if 192 <= packet[0] < 232 && |packet| >= 2 then ForLoco(Number(packet[0] - 192, packet[1]), packet[2..])
    else NotForLocos
  }

  function Number(high: int, low: int): int {
    256 * high + low
  }

  /** A speed as a number of steps out of 28 or 126. */
  datatype Speed = Halt | AtOnce | Notch(n: nat, of: nat)

  datatype Order = NoOrder | Go(cab: nat, speed: Speed, forward: bool)

  /** The order in a packet for locos: 00111111 DSSSSSSS, or 01DCSSSS with C as the lowest bit of the speed. */
  function OrderOf(packet: seq<byte>): Order {
    match HeardBy(packet)
    case NotForLocos => NoOrder
    case ForLoco(cab, i) =>
      if |i| == 2 && i[0] == 0x3F then
        var s := i[1] % 128;
        Go(cab, if s == 0 then Halt else if s == 1 then AtOnce else Notch(s - 1, 126), i[1] / 128 == 1)
      else if |i| == 1 && i[0] / 64 == 1 then
        var s, c := i[0] % 16, i[0] / 16 % 2;
        Go(cab, if s == 0 then Halt else if s == 1 then AtOnce else Notch(2 * (s - 2) + c + 1, 28), i[0] / 32 % 2 == 1)
      else NoOrder
  }

  /** What a speed of 0 to 127 is meant to be: with 28 steps, step n is for the speeds from 4.6 n - 3.6 on. */
  predicate Means(speed: nat, steps: byte, read: Speed) {
    if speed == 0 then read == Halt
    else if speed == 1 then read == AtOnce
    else if steps > 28 then read == Notch(speed - 1, 126)
    else read.Notch? && read.of == 28 && 1 <= read.n <= 28 && 46 * read.n <= 10 * speed + 36 < 46 * (read.n + 1)
  }

  lemma AddressIsHeard(cab: uint16, i: seq<byte>)
    ensures cab <= 10239 ==> HeardBy(Address(cab) + i) == ForLoco(cab, i)
    ensures cab > 10239 ==> HeardBy(Address(cab) + i).NotForLocos? || HeardBy(Address(cab) + i).cab != cab
  {
    var p := Address(cab) + i;
    if cab > HIGHEST_SHORT_ADDR {
      assert cab == 256 * (cab / 256) + cab % 256;
      assert p[0] == 192 + cab / 256 % 256 % 64 && p[1] == cab % 256 && p[2..] == i;
    } else {
      assert p[0] == cab && p[1..] == i;
    }
  }

  lemma Code28IsRead(speed: nat)
    requires speed < 128
    ensures var code := Code28(speed);
      var s, c := code % 16, code / 16;
      Means(speed, 28, if s == 0 then Halt else if s == 1 then AtOnce else Notch(2 * (s - 2) + c + 1, 28))
  {
    if speed > 1 {
      var n := (speed * 10 + 36) / 46;
      assert 46 * n <= speed * 10 + 36 < 46 * (n + 1);
      assert 1 <= n <= 28;
      Interleaved(n);
    }
  }

  lemma Interleaved(n: nat)
    requires 1 <= n <= 28
    ensures var code := (n + 3) / 2 + (if n % 2 == 1 then 0 else 16);
      2 <= code % 16 && 2 * (code % 16 - 2) + code / 16 + 1 == n
  {
  }

  lemma Bits28(code: nat, forward: nat)
    requires code < 32 && forward < 2
    ensures var b := 0x40 + code + 32 * forward;
      b < 256 && b / 64 == 1 && b % 16 == code % 16 && b / 16 % 2 == code / 16 && b / 32 % 2 == forward
  {
  }

  /** Main result on the packets: a decoder with that address reads the speed and the direction that were meant,
      in 28 and in 126 steps, if and only if the address is one of 0 to 10239. */
  lemma OrderIsRead(cab: uint16, speedCode: byte, speedSteps: byte)
    ensures var o := OrderOf(SpeedPacket(cab, speedCode, speedSteps));
      o.Go? && o.cab == cab && Means(speedCode % 128, speedSteps, o.speed) && o.forward == (speedCode >= 128)
      <==> cab <= 10239
  {
    var i := SpeedInstruction(speedCode, speedSteps);
    AddressIsHeard(cab, i);
    Code28IsRead(speedCode % 128);
    hide Address, Code28, HeardBy;
    Bits28(Code28(speedCode % 128), if speedCode >= 128 then 1 else 0);
  }

  /** Whoever only asks for motion reads the same. */
  lemma ReadingsAgree(packet: seq<byte>)
    requires OrderOf(packet).Go?
    ensures MotionOf(packet) == EmergencyStop <==> OrderOf(packet).speed == AtOnce
    ensures Moves(packet) <==> OrderOf(packet).speed != AtOnce
  {
  }

  // ---------- What an accessory decoder hears ----------

  datatype Coil = NoCoil | Coil(address: nat, port: nat, gate: bool, on: bool)

  function CoilAddress(low: int, inverted: int): int {
    low + 64 * (7 - inverted)
  }

  /** 10AAAAAA 1AAACDDD, the upper address bits inverted. */
  function CoilOf(packet: seq<byte>): Coil {
    if |packet| == 2 && packet[0] / 64 == 2 && packet[1] >= 128 then
      Coil(CoilAddress(packet[0] % 64, packet[1] / 16 % 8), packet[1] / 2 % 4, packet[1] % 2 == 1,
             packet[1] / 8 % 2 == 1)
    else NoCoil
  }

  lemma SecondByte(high: nat, port: nat, gate: nat)
    requires high < 8 && port < 4 && gate < 2
    ensures var base := high * 16 + port * 2 + gate;
      && base < 128 && base % 16 < 8 && base / 16 == high && base % 16 == port * 2 + gate
      && var b := InvertTop(base);
         && 136 <= b && b / 16 % 8 == 7 - high && b / 2 % 4 == port && b % 2 == gate && b / 8 % 2 == 1
         && (b - 8) / 16 % 8 == 7 - high && (b - 8) / 2 % 4 == port && (b - 8) % 2 == gate && (b - 8) / 8 % 2 == 0
  {
  }

  lemma FirstByte(low: nat)
    requires low < 64
    ensures (low + 128) / 64 == 2 && (low + 128) % 64 == low
  {
  }

  /** An accessory decoder reads the address, port and gate that were meant, switched on; and with bit 3 of the second
      byte cleared, switched off. */
  lemma CoilIsRead(address: nat, port: nat, gate: bool)
    requires address < 512 && port < 4
    ensures var p := AccessoryPacket(address, port, gate);
      && |p| == 2 && p[1] >= 136 && p[1] / 8 % 2 == 1
      && CoilOf(p) == Coil(address, port, gate, true)
      && CoilOf([p[0], p[1] - 8]) == Coil(address, port, gate, false)
  {
    hide InvertTop;
    var high, g := address / 64, if gate then 1 else 0;
    assert address == address % 64 + 64 * high && high % 8 == high && port % 4 == port;
    SecondByte(high, port, g);
    FirstByte(address % 64);
    assert AccessoryPacket(address, port, gate) == [address % 64 + 128, InvertTop(high * 16 + port * 2 + g)];
  }
}

/** A decoder on the programming track: the Direct mode packets of section E of NMRA S-9.2.3
    acting on a memory of 1024 configuration variables. */
module Decoder {
  import opened Bytes
  import opened AckVm

  type Memory = m: seq<byte> | |m| == 1024 witness seq(1024, _ => 0)

  predicate IsCv(cv: int) {
    1 <= cv <= 1024
  }

  function Cv(m: Memory, cv: int): byte
    requires IsCv(cv)
  {
    m[cv - 1]
  }

  datatype Request =
    | WriteByte(cv: int, value: byte)
    | VerifyByte(cv: int, value: byte)
    | WriteBit(cv: int, bit: byte, on: bool)
    | VerifyBit(cv: int, bit: byte, on: bool)
    | NotDirectMode

  /** Reads 0111CCAA AAAAAAAA DDDDDDDD, with DDDDDDDD = 111KDBBB for bit manipulation. */
  function Decoded(p: Packet): (q: Request)
    ensures !q.NotDirectMode? ==> IsCv(q.cv)
    ensures q.WriteBit? || q.VerifyBit? ==> q.bit < 8
  {
    var cv := (p.first % 4) * 256 + p.second + 1;
    if p.first / 16 != 7 then NotDirectMode
    else match (p.first / 4) % 4
      case 1 => VerifyByte(cv, p.third)
      case 3 => WriteByte(cv, p.third)
      case 2 =>
        if p.third / 32 != 7 then NotDirectMode
        else if (p.third / 16) % 2 == 1 then WriteBit(cv, p.third % 8, (p.third / 8) % 2 == 1)
        else VerifyBit(cv, p.third % 8, (p.third / 8) % 2 == 1)
      case _ => NotDirectMode
  }

  /** The number `v` with bit `n` made `on`. */
  function SetBit(v: nat, n: nat, on: bool): nat {
    if n == 0 then v / 2 * 2 + (if on then 1 else 0)
    else 2 * SetBit(v / 2, n - 1, on) + v % 2
  }

  lemma {:induction false} SetBitChangesOneBit(v: nat, n: nat, on: bool, k: nat)
    ensures Bit(SetBit(v, n, on), k) == if k == n then on else Bit(v, k)
  {
    if n > 0 && k > 0 {
      SetBitChangesOneBit(v / 2, n - 1, on, k - 1);
    }
  }

  lemma SetBitStaysBelow(v: nat, n: nat, on: bool, size: nat)
    requires v < Pow2(size) && n < size
    ensures SetBit(v, n, on) < Pow2(size)
  {
  }

  function WithBit(v: byte, n: byte, on: bool): byte
    requires n < 8
  {
    SetBitStaysBelow(v, n, on, 8);
    SetBit(v, n, on)
  }

  /** A truthful decoder does what it is told and acks a verify exactly when it is right, while
      its acks to writes are anybody's guess.  An unknown one may ack or not as it likes. */
  datatype World = World(truthful: bool, mem: Memory, last: Packet) {
    function Receive(p: Packet): World {
      match Decoded(p)
      case WriteByte(cv, v) => this.(mem := mem[cv - 1 := v], last := p)
      case WriteBit(cv, b, on) => this.(mem := mem[cv - 1 := WithBit(mem[cv - 1], b, on)], last := p)
      case _ => this.(last := p)
    }

    predicate MayAnswer(ack: bool) {
      truthful ==>
        match Decoded(last)
        case VerifyByte(cv, v) => ack == (Cv(mem, cv) == v)
        case VerifyBit(cv, b, on) => ack == (Bit(Cv(mem, cv), b) == on)
        case _ => true
    }
  }

  function After(w: World, sent: seq<Packet>): World {
    if sent == [] then w
    else After(w, sent[..|sent| - 1]).Receive(sent[|sent| - 1])
  }
}

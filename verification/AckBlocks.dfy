/** What the building blocks of the ack programs do with a truthful decoder on the track. */
module AckBlocks {
  import opened Bytes
  import opened AckVm
  import opened Decoder
  import opened AckLogic
  import opened AckPrograms

  // ---------- Packets ----------

  lemma OrBelow8(low: nat, q: nat)
    requires low < 8
    ensures Or(8 * q, low) == 8 * q + low && (low < 2 ==> Or(16 * q, 8 * low) == 16 * q + 8 * low)
  {
    Shifts(q);
    OrLow(low, q, 3);
    if low < 2 {
      OrLow(8 * low, q, 4);
    }
  }

  lemma AddressBits(x: int)
    ensures HighByte(x) % 4 * 256 + LowByte(x) == x % 1024
  {
    var high := x / 256;
    assert x == 256 * high + x % 256;
    assert high == 256 * (high / 256) + high % 256;
    assert high % 256 == 4 * (high % 256 / 4) + high % 256 % 4;
    assert x == 1024 * (64 * (high / 256) + high % 256 / 4) + (256 * (high % 256 % 4) + x % 256);
  }

  lemma FirstByteFields(a: nat, opcode: byte)
    requires a < 4 && opcode in {WRITE_BYTE, VERIFY_BYTE, BIT_MANIPULATE}
    ensures opcode + a < 256 && (opcode + a) % 4 == a && (opcode + a) / 16 == 7 && opcode % 4 == 0
    ensures (opcode + a) / 4 % 4 == if opcode == WRITE_BYTE then 3 else if opcode == VERIFY_BYTE then 1 else 2
  {
  }

  lemma FirstByteOr(a: nat, opcode: byte)
    requires a < 4 && opcode in {WRITE_BYTE, VERIFY_BYTE, BIT_MANIPULATE}
    ensures Or(a, opcode) == opcode + a && LowByte(opcode + a) == opcode + a
  {
    var q := opcode / 4;
    FirstByteFields(a, opcode);
    assert opcode == 4 * q;
    Shifts(q);
    OrLow(a, q, 2);
  }

  lemma FirstByte(opcode: byte, cv: int)
    requires opcode in {WRITE_BYTE, VERIFY_BYTE, BIT_MANIPULATE}
    ensures LowByte(Cv1(opcode, cv)) == opcode + HighByte(cv - 1) % 4
  {
    hide Or, HighByte, LowByte;
    FirstByteOr(HighByte(cv - 1) % 4, opcode);
  }

  /** Within the 1024 CVs that a packet can address, a decoder reads what the station wrote;
      outside them it reads another CV. */
  lemma PacketsMeanWhatTheySay(cv: int, value: byte)
    ensures Decoded(Message(WRITE_BYTE, cv, value)) == WriteByte((cv - 1) % 1024 + 1, value)
    ensures Decoded(Message(VERIFY_BYTE, cv, value)) == VerifyByte((cv - 1) % 1024 + 1, value)
    ensures (cv - 1) % 1024 + 1 == cv <==> IsCv(cv)
  {
    hide HighByte, Cv1;
    var a := HighByte(cv - 1) % 4;
    AddressBits(cv - 1);
    FirstByte(WRITE_BYTE, cv);
    FirstByte(VERIFY_BYTE, cv);
    FirstByteFields(a, WRITE_BYTE);
    FirstByteFields(a, VERIFY_BYTE);
  }

  lemma BitFields(write: nat, on: nat, b: nat)
    requires write < 2 && on < 2 && b < 8
    ensures var x := 0xE0 + 16 * write + 8 * on + b;
      x < 256 && x / 32 == 7 && x % 8 == b && x / 8 % 2 == on && x / 16 % 2 == write
  {
  }

  lemma BitByte(base: byte, on: bool, b: byte)
    requires b < 8 && base in {WRITE_BIT, VERIFY_BIT}
    ensures BitInstruction(base, if on then BIT_ON else BIT_OFF, b) == base + (if on then 8 else 0) + b
  {
    hide Or;
    var up: nat := if on then 1 else 0;
    var q := if base == WRITE_BIT then 15 else 14;
    OrBelow8(up, q);
    OrBelow8(b, 2 * q + up);
  }

  lemma BitPacket(op: byte, r: Regs)
    requires op in {W0, W1, V0, V1} && r.bit < 8
    ensures PacketOf(op, r) == Packet(BIT_MANIPULATE + HighByte(r.cv - 1) % 4, LowByte(r.cv - 1),
      0xE0 + (if op == W0 || op == W1 then 16 else 0) + (if op == W1 || op == V1 then 8 else 0) + r.bit)
  {
    hide Or, HighByte, Cv1, BitInstruction;
    FirstByte(BIT_MANIPULATE, r.cv);
    BitByte(if op == W0 || op == W1 then WRITE_BIT else VERIFY_BIT, op == W1 || op == V1, r.bit);
    ByteIsLow(BitInstruction(if op == W0 || op == W1 then WRITE_BIT else VERIFY_BIT,
                             if op == W1 || op == V1 then BIT_ON else BIT_OFF, r.bit));
  }

  lemma ByteIsLow(v: nat)
    ensures v < 256 ==> LowByte(v) == v
  {
  }

  lemma BitPacketsMeanWhatTheySay(op: byte, r: Regs)
    requires op in {W0, W1, V0, V1} && IsCv(r.cv) && r.bit < 8
    ensures Decoded(PacketOf(op, r)) ==
            if op == W0 || op == W1 then WriteBit(r.cv, r.bit, op == W1) else VerifyBit(r.cv, r.bit, op == V1)
  {
    hide PacketOf, HighByte, LowByte;
    var p := PacketOf(op, r);
    BitPacket(op, r);
    AddressBits(r.cv - 1);
    FirstByteFields(HighByte(r.cv - 1) % 4, BIT_MANIPULATE);
    BitFields(if op == W0 || op == W1 then 1 else 0, if op == W1 || op == V1 then 1 else 0, r.bit);
    assert p.first / 16 == 7 && p.first / 4 % 4 == 2 && p.first % 4 * 256 + p.second + 1 == r.cv;
  }

  // ---------- Single instructions ----------

  /** The opcodes that only load a register, and SKIPTARGET, which does nothing. */
  function Loaded(op: byte, r: Regs): Regs {
    if op == STARTMERGE then r.(bit := 7, value := 0)
    else if op == STASHLOCOID then r.(stash := r.value)
    else if op == SETBYTEH then r.(value := HighByte(r.word))
    else if op == SETBYTEL then r.(value := LowByte(r.word))
    else r
  }

  lemma RunsLoad(op: byte, rest: seq<byte>, r: Regs, w: World, post: Outcome)
    requires op in {STARTMERGE, STASHLOCOID, SETBYTEH, SETBYTEL, SKIPTARGET}
    ensures Surely(rest, Loaded(op, r), w, post) ==> Surely([op] + rest, r, w, post)
  {
    hide PacketOf, HighByte, LowByte;
    assert ([op] + rest)[1..] == rest;
  }

  /** The calling opcodes: a callback if `r.ack` asks for it, else on to the rest. */
  lemma RunsCall(op: byte, rest: seq<byte>, r: Regs, w: World, post: Outcome)
    requires op in {ITC0, ITC1, ITCB, ITCBV, ITCB7}
    ensures r.ack && post(if op == ITC0 then 0 else if op == ITC1 then 1 else if op == ITCB7 then r.value % 128
      else r.value, r, w)
        ==> Surely([op] + rest, r, w, post)
    ensures !r.ack && Surely(rest, r, w, post) ==> Surely([op] + rest, r, w, post)
  {
    assert ([op] + rest)[1..] == rest;
  }

  lemma RunsNakFail(rest: seq<byte>, r: Regs, w: World, post: Outcome)
    requires r.ack
    ensures Surely(rest, r, w, post) ==> Surely([NAKFAIL] + rest, r, w, post)
  {
    assert ([NAKFAIL] + rest)[1..] == rest;
  }

  lemma RunsMerge(rest: seq<byte>, r: Regs, w: World, post: Outcome)
    ensures Surely(rest, Merged(r), w, post) ==> Surely([MERGE] + rest, r, w, post)
  {
    assert ([MERGE] + rest)[1..] == rest;
  }

  lemma RunsSkip(op: byte, rest: seq<byte>, target: seq<byte>, r: Regs, w: World, post: Outcome)
    requires op in {ITSKIP, NAKSKIP} && SkipsTo(rest, target)
    ensures Surely(if r.ack == (op == ITSKIP) then target else rest, r, w, post) ==> Surely([op] + rest, r, w, post)
  {
    assert ([op] + rest)[1..] == rest;
  }

  lemma RunsBad20(rest: seq<byte>, target: seq<byte>, r: Regs, w: World, post: Outcome)
    requires SkipsTo(rest, target)
    ensures Surely(if r.value > 120 then target else rest, r, w, post) ==> Surely([BAD20SKIP] + rest, r, w, post)
  {
    assert ([BAD20SKIP] + rest)[1..] == rest;
  }

  lemma RunsSet(op: byte, n: byte, rest: seq<byte>, r: Regs, w: World, post: Outcome)
    requires op in {SETBIT, SETCV, SETBYTE}
    ensures var s := if op == SETBIT then r.(bit := n) else if op == SETCV then r.(cv := n) else r.(value := n);
      Surely(rest, s, w, post) ==> Surely([op, n] + rest, r, w, post)
  {
    var code := [op, n] + rest;
    assert code[1..][1..] == rest;
  }

  /** A send and its WACK: any answer the decoder may give has to be good. */
  lemma RunsSend(op: byte, rest: seq<byte>, r: Regs, w: World, post: Outcome)
    requires W0 <= op <= V1
    requires var x := w.Receive(PacketOf(op, r));
      forall a: bool | x.MayAnswer(a) :: Surely(rest, r.(ack := a), x, post)
    ensures Surely([op, WACK] + rest, r, w, post)
  {
    var code := [op, WACK] + rest;
    var x := w.Receive(PacketOf(op, r));
    assert code[1..][1..] == rest;
    assert Decode(code[1..], r) == Await(rest);
    assert SurelyAfter(|code[1..]|, Await(rest), r, x, post);
    assert Surely(code[1..], r, x, post);
  }

  lemma RunsVerify(rest: seq<byte>, r: Regs, w: World, post: Outcome)
    requires w.truthful && IsCv(r.cv)
    ensures Surely(rest, r.(ack := Cv(w.mem, r.cv) == r.value), w.(last := PacketOf(VB, r)), post)
        ==> Surely([VB, WACK] + rest, r, w, post)
  {
    PacketsMeanWhatTheySay(r.cv, r.value);
    if Surely(rest, r.(ack := Cv(w.mem, r.cv) == r.value), w.(last := PacketOf(VB, r)), post) {
      RunsSend(VB, rest, r, w, post);
    }
  }

  lemma RunsVerifyBit(op: byte, rest: seq<byte>, r: Regs, w: World, post: Outcome)
    requires w.truthful && IsCv(r.cv) && r.bit < 8 && op in {V0, V1}
    ensures Surely(rest, r.(ack := Bit(Cv(w.mem, r.cv), r.bit) == (op == V1)), w.(last := PacketOf(op, r)), post)
        ==> Surely([op, WACK] + rest, r, w, post)
  {
    BitPacketsMeanWhatTheySay(op, r);
    if Surely(rest, r.(ack := Bit(Cv(w.mem, r.cv), r.bit) == (op == V1)), w.(last := PacketOf(op, r)), post) {
      RunsSend(op, rest, r, w, post);
    }
  }

  /** Compares a CV with a constant. */
  lemma RunsTest(cv: byte, value: byte, rest: seq<byte>, r: Regs, w: World, post: Outcome)
    requires w.truthful && IsCv(cv)
    ensures var s := r.(cv := cv, value := value);
      Surely(rest, s.(ack := Cv(w.mem, cv) == value), w.(last := PacketOf(VB, s)), post)
      ==> Surely([SETCV, cv] + ([SETBYTE, value] + ([VB, WACK] + rest)), r, w, post)
  {
    var s := r.(cv := cv, value := value);
    RunsVerify(rest, s, w, post);
    RunsSet(SETBYTE, value, [VB, WACK] + rest, r.(cv := cv), w, post);
    RunsSet(SETCV, cv, [SETBYTE, value] + ([VB, WACK] + rest), r, w, post);
  }

  /** After a write the decoder holds the value, acked or not. */
  lemma RunsWrite(rest: seq<byte>, r: Regs, w: World, post: Outcome)
    requires w.truthful && IsCv(r.cv)
    requires forall a: bool ::
      Surely(rest, r.(ack := a), w.(mem := w.mem[r.cv - 1 := r.value], last := PacketOf(WB, r)), post)
    ensures Surely([WB, WACK] + rest, r, w, post)
  {
    PacketsMeanWhatTheySay(r.cv, r.value);
    RunsSend(WB, rest, r, w, post);
  }

  lemma RunsWriteBit(op: byte, rest: seq<byte>, r: Regs, w: World, post: Outcome)
    requires w.truthful && IsCv(r.cv) && r.bit < 8 && op in {W0, W1}
    requires forall a: bool ::
      Surely(rest, r.(ack := a),
             w.(mem := w.mem[r.cv - 1 := WithBit(w.mem[r.cv - 1], r.bit, op == W1)], last := PacketOf(op, r)), post)
    ensures Surely([op, WACK] + rest, r, w, post)
  {
    BitPacketsMeanWhatTheySay(op, r);
    RunsSend(op, rest, r, w, post);
  }

  // ---------- Reading a byte ----------

  /** `k` MERGEs on top of `value`, for the bits k-1 to 0 of `v`. */
  function ReadInto(value: byte, v: byte, k: nat): byte
    decreases k
  {
    if k == 0 then value else ReadInto((2 * value) % 256 + (if Bit(v, k - 1) then 1 else 0), v, k - 1)
  }

  lemma {:induction false} ReadIntoFindsByte(v: byte, k: nat)
    requires k <= 8
    ensures Shr(v, k) < 256 && ReadInto(Shr(v, k), v, k) == v
    decreases k
  {
    if k > 0 {
      var y := Shr(v, k - 1);
      hide Shr;
      ReadIntoFindsByte(v, k - 1);
      ShrOnce(v, k);
      HalveAndBack(y);
      assert ReadInto(y / 2, v, k) == ReadInto(y, v, k - 1);
    }
  }

  lemma ByteShr(v: byte)
    ensures Shr(v, 8) == 0
  {
    assert Pow2(8) == 256;
    ShrToNothing(v, 8);
  }

  lemma HalveAndBack(y: nat)
    requires y < 256
    ensures y / 2 < 256 && 2 * (y / 2) % 256 + (if y % 2 == 1 then 1 else 0) == y
  {
  }

  function Doubled(m: nat, k: nat): nat
    decreases k
  {
    if k == 0 then m else Doubled(2 * m, k - 1)
  }

  lemma {:induction false} ReadIntoIsShort(value: byte, v: byte, k: nat, m: nat)
    requires value < m
    ensures ReadInto(value, v, k) < Doubled(m, k)
    decreases k
  {
    if k > 0 {
      ReadIntoIsShort((2 * value) % 256 + (if Bit(v, k - 1) then 1 else 0), v, k - 1, 2 * m);
    }
  }

  /** The registers after reading `k` more bits and verifying the result. */
  function ReadRegs(r: Regs, v: byte, k: nat): Regs {
    var x := ReadInto(r.value, v, k);
    r.(value := x, bit := 255, ack := v == x)
  }

  lemma MergeReadsOneBit(r: Regs, v: byte, k: nat)
    requires 0 < k <= 8 && r.bit == k - 1
    ensures Merged(r.(ack := !Bit(v, k - 1))).bit == (k - 2) % 256 && Merged(r.(ack := !Bit(v, k - 1))).cv == r.cv
    ensures ReadRegs(Merged(r.(ack := !Bit(v, k - 1))), v, k - 1) == ReadRegs(r, v, k)
  {
  }

  lemma RunsNoBits(rest: seq<byte>, r: Regs, w: World, post: Outcome)
    requires w.truthful && IsCv(r.cv) && r.bit == 255
    requires var s := ReadRegs(r, Cv(w.mem, r.cv), 0); Surely(rest, s, w.(last := PacketOf(VB, s)), post)
    ensures Surely(ReadBits(0, [VB, WACK] + rest), r, w, post)
  {
    hide Surely, Decode;
    RunsVerify(rest, r, w, post);
  }

  lemma {:induction false} RunsReadBits(k: nat, rest: seq<byte>, r: Regs, w: World, post: Outcome)
    requires w.truthful && IsCv(r.cv) && k <= 8 && r.bit == (k - 1) % 256
    requires var s := ReadRegs(r, Cv(w.mem, r.cv), k); Surely(rest, s, w.(last := PacketOf(VB, s)), post)
    ensures Surely(ReadBits(k, [VB, WACK] + rest), r, w, post)
    decreases k
  {
    hide Surely, PacketOf, Merged, ReadRegs, Decode;
    var v := Cv(w.mem, r.cv);
    if k == 0 {
      RunsNoBits(rest, r, w, post);
    } else {
      var more := ReadBits(k - 1, [VB, WACK] + rest);
      var r1 := r.(ack := !Bit(v, k - 1));
      var w1 := w.(last := PacketOf(V0, r));
      MergeReadsOneBit(r, v, k);
      RunsReadBits(k - 1, rest, Merged(r1), w1, post);
      RunsMerge(more, r1, w1, post);
      RunsVerifyBit(V0, [MERGE] + more, r, w, post);
    }
  }

  lemma ReadRegsFindByte(r: Regs, v: byte)
    ensures ReadRegs(r.(bit := 7, value := 0), v, 8) == r.(value := v, bit := 255, ack := true)
  {
    hide ReadInto, Shr;
    ReadIntoFindsByte(v, 8);
    ByteShr(v);
  }

  /** Reading a byte from a truthful decoder finds it, and its final verify is acked. */
  lemma RunsReadByte(rest: seq<byte>, r: Regs, w: World, post: Outcome)
    requires w.truthful && IsCv(r.cv)
    ensures var s := r.(value := Cv(w.mem, r.cv), bit := 255, ack := true);
      Surely(rest, s, w.(last := PacketOf(VB, s)), post) ==> Surely(ReadByte(rest), r, w, post)
  {
    hide Surely, PacketOf, ReadRegs, ReadBits, Decode;
    var v := Cv(w.mem, r.cv);
    var s := r.(value := v, bit := 255, ack := true);
    if Surely(rest, s, w.(last := PacketOf(VB, s)), post) {
      var r1 := r.(bit := 7, value := 0);
      ReadRegsFindByte(r, v);
      RunsReadBits(8, rest, r1, w, post);
      RunsLoad(STARTMERGE, ReadBits(8, [VB, WACK] + rest), r, w, post);
    }
  }

  // ---------- Skipping ----------

  /** Skipping in `code` lands on `rest`. */
  predicate SkipsTo(code: seq<byte>, rest: seq<byte>) {
    SKIPTARGET in code && AfterTarget(code) == rest
  }

  lemma TargetStops(rest: seq<byte>)
    ensures SkipsTo([SKIPTARGET] + rest, rest)
  {
    assert ([SKIPTARGET] + rest)[0] == SKIPTARGET;
  }

  lemma SkipsOver(piece: seq<byte>, code: seq<byte>, rest: seq<byte>)
    requires SKIPTARGET !in piece
    ensures SkipsTo(code, rest) ==> SkipsTo(piece + code, rest)
    decreases |piece|
  {
    if piece == [] {
      assert piece + code == code;
    } else {
      assert (piece + code)[1..] == piece[1..] + code;
      SkipsOver(piece[1..], code, rest);
    }
  }

  lemma SkipsOverBits(k: nat, code: seq<byte>, rest: seq<byte>)
    ensures SkipsTo(code, rest) ==> SkipsTo(ReadBits(k, code), rest)
  {
    if k > 0 {
      SkipsOverBits(k - 1, code, rest);
      SkipsOver([MERGE], ReadBits(k - 1, code), rest);
      SkipsOver([V0, WACK], [MERGE] + ReadBits(k - 1, code), rest);
    }
  }

  lemma SkipsOverRead(code: seq<byte>, rest: seq<byte>)
    ensures SkipsTo(code, rest) ==> SkipsTo(ReadByte(code), rest)
  {
    SkipsOver([VB, WACK], code, rest);
    SkipsOverBits(8, [VB, WACK] + code, rest);
    SkipsOver([STARTMERGE], ReadBits(8, [VB, WACK] + code), rest);
  }
}

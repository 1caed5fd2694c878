/** The round trips of loco and consist addresses through a decoder, and what the reading
    programs find on any decoder. */
module LocoAddress {
  import opened Bytes
  import opened AckVm
  import opened Decoder
  import opened AckLogic
  import opened AckPrograms
  import opened AckBlocks

  const HIGHEST_SHORT_ADDR: nat := 127

  /** Calls back `value` and leaves the decoder with memory `m`. */
  ghost function CallsBack(value: int, m: Memory): Outcome {
    (v: int, r: Regs, w: World) => v == value && w.truthful && w.mem == m
  }

  // ---------- Reading a loco's own address ----------

  /** What OWN_ADDRESS calls back: by CV 29 bit 5 the address in CVs 17 and 18, or that in CV 1. */
  function OwnAddress(m: Memory): int {
    if Bit(Cv(m, 29), 5) then MarkLong(Cv(m, 18) + (Cv(m, 17) - 192) * 256)
    else if Cv(m, 1) < 128 then Cv(m, 1)
    else -1
  }

  lemma ShortAddressRuns(r0: Regs, w0: World)
    requires w0.truthful && !Bit(Cv(w0.mem, 29), 5)
    ensures Surely(SHORT_ADDRESS, r0, w0, CallsBack(OwnAddress(w0.mem), w0.mem))
  {
    var post := CallsBack(OwnAddress(w0.mem), w0.mem);
    var v := Cv(w0.mem, 1);
    var end := [ITCB] + [CALLFAIL];
    var c3 := ReadBits(7, [VB, WACK] + end);
    var c2 := [SETBIT, 6] + c3;
    var r1 := r0.(cv := 1);
    var r2 := r1.(bit := 7, value := 0);
    var r3 := r2.(bit := 6);
    var s := ReadRegs(r3, v, 7);
    var w1 := w0.(last := PacketOf(VB, s));
    ReadIntoIsShort(0, v, 7, 1);
    if v < 128 {
      ShrToNothing(v, 7);
      ReadIntoFindsByte(v, 7);
    } else {
      assert Surely([CALLFAIL], s, w1, post);
    }
    assert end[1..] == [CALLFAIL];
    assert Surely(end, s, w1, post);
    RunsReadBits(7, end, r3, w0, post);
    RunsSet(SETBIT, 6, c3, r2, w0, post);
    RunsLoad(STARTMERGE, c2, r1, w0, post);
    RunsSet(SETCV, 1, [STARTMERGE] + c2, r0, w0, post);
  }

  lemma RunsCombineLocoId(rest: seq<byte>, r: Regs, w: World, post: Outcome)
    requires post(MarkLong(r.value + (r.stash - 192) * 256), r, w)
    ensures Surely([COMBINELOCOID] + rest, r, w, post)
  {
  }

  lemma LongAddressRuns(rest: seq<byte>, r0: Regs, w0: World)
    requires w0.truthful && Bit(Cv(w0.mem, 29), 5)
    ensures Surely(LongAddress(rest), r0, w0, CallsBack(OwnAddress(w0.mem), w0.mem))
  {
    hide Surely, PacketOf, Decode;
    var post := CallsBack(OwnAddress(w0.mem), w0.mem);
    var c6 := [COMBINELOCOID] + rest;
    var c5 := [NAKFAIL] + c6;
    var c4 := [SETCV, 18] + ReadByte(c5);
    var c3 := [STASHLOCOID] + c4;
    var c2 := [NAKFAIL] + c3;
    var r1 := r0.(cv := 17);
    var r2 := r1.(value := Cv(w0.mem, 17), bit := 255, ack := true);
    var w2 := w0.(last := PacketOf(VB, r2));
    var r3 := r2.(stash := r2.value);
    var r4 := r3.(cv := 18);
    var r5 := r4.(value := Cv(w0.mem, 18), bit := 255, ack := true);
    var w5 := w0.(last := PacketOf(VB, r5));
    RunsCombineLocoId(rest, r5, w5, post);
    RunsNakFail(c6, r5, w5, post);
    RunsReadByte(c5, r4, w2, post);
    RunsSet(SETCV, 18, ReadByte(c5), r3, w2, post);
    RunsLoad(STASHLOCOID, c4, r2, w2, post);
    RunsNakFail(c3, r2, w2, post);
    RunsReadByte(c2, r1, w0, post);
    RunsSet(SETCV, 17, ReadByte(c2), r0, w0, post);
  }

  lemma LongAddressSkips(rest: seq<byte>, target: seq<byte>)
    requires SkipsTo(rest, target)
    ensures SkipsTo(LongAddress(rest), target)
  {
    var c6 := [COMBINELOCOID] + rest;
    var c4 := ReadByte([NAKFAIL] + c6);
    var c2 := [STASHLOCOID] + ([SETCV, 18] + c4);
    SkipsOver([COMBINELOCOID], rest, target);
    SkipsOver([NAKFAIL], c6, target);
    SkipsOverRead([NAKFAIL] + c6, target);
    SkipsOver([SETCV, 18], c4, target);
    SkipsOver([STASHLOCOID], [SETCV, 18] + c4, target);
    SkipsOver([NAKFAIL], c2, target);
    SkipsOverRead([NAKFAIL] + c2, target);
    SkipsOver([SETCV, 17], ReadByte([NAKFAIL] + c2), target);
  }

  lemma OwnAddressRuns(r0: Regs, w0: World)
    requires w0.truthful
    ensures Surely(OWN_ADDRESS, r0, w0, CallsBack(OwnAddress(w0.mem), w0.mem))
  {
    hide Surely, PacketOf, Decode;
    var post := CallsBack(OwnAddress(w0.mem), w0.mem);
    var short := [SKIPTARGET] + SHORT_ADDRESS;
    var c3 := [ITSKIP] + LongAddress(short);
    var c2 := [V0, WACK] + c3;
    var c1 := [SETBIT, 5] + c2;
    var r1 := r0.(cv := 29);
    var r2 := r1.(bit := 5);
    var r3 := r2.(ack := !Bit(Cv(w0.mem, 29), 5));
    var w3 := w0.(last := PacketOf(V0, r2));
    TargetStops(SHORT_ADDRESS);
    LongAddressSkips(short, SHORT_ADDRESS);
    if r3.ack {
      ShortAddressRuns(r3, w3);
    } else {
      LongAddressRuns(short, r3, w3);
    }
    RunsSkip(ITSKIP, LongAddress(short), SHORT_ADDRESS, r3, w3, post);
    RunsVerifyBit(V0, c3, r2, w0, post);
    RunsSet(SETBIT, 5, c2, r1, w0, post);
    RunsSet(SETCV, 29, c1, r0, w0, post);
  }

  // ---------- Reading a consist address ----------

  ghost predicate Same(w: World, w0: World) {
    w.truthful && w.mem == w0.mem
  }

  /** CV 20 holds the upper digits of an extended consist address. */
  predicate IsExtended(m: Memory) {
    1 <= Cv(m, 20) <= 120
  }

  /** CVs 20 and 19 as decimal digits, without the direction bit of CV 19. */
  function ExtendedAddress(m: Memory): int {
    Cv(m, 20) * 100 + Cv(m, 19) % 128 % 100
  }

  lemma ExtendedConsistSkips(rest: seq<byte>)
    ensures var c7 := [STASHLOCOID] + ([SETCV, 19] + ReadByte([NAKFAIL] + ([COMBINE1920] + ([SKIPTARGET] + rest))));
      && SkipsTo(c7, rest) && SkipsTo([BAD20SKIP] + c7, rest)
      && SkipsTo(ReadByte([NAKSKIP] + ([BAD20SKIP] + c7)), rest)
  {
    var c9 := [COMBINE1920] + ([SKIPTARGET] + rest);
    var c8 := ReadByte([NAKFAIL] + c9);
    var c7 := [STASHLOCOID] + ([SETCV, 19] + c8);
    TargetStops(rest);
    SkipsOver([COMBINE1920], [SKIPTARGET] + rest, rest);
    SkipsOver([NAKFAIL], c9, rest);
    SkipsOverRead([NAKFAIL] + c9, rest);
    SkipsOver([SETCV, 19], c8, rest);
    SkipsOver([STASHLOCOID], [SETCV, 19] + c8, rest);
    SkipsOver([BAD20SKIP], c7, rest);
    SkipsOver([NAKSKIP], [BAD20SKIP] + c7, rest);
    SkipsOverRead([NAKSKIP] + ([BAD20SKIP] + c7), rest);
  }

  /** Goes on with `rest` if a CV is zero and with `code` if not. */
  lemma SkipsIfZero(cv: byte, code: seq<byte>, rest: seq<byte>, r: Regs, w: World, post: Outcome)
    requires w.truthful && IsCv(cv) && SkipsTo(code, rest)
    requires Cv(w.mem, cv) == 0 ==> forall s: Regs, x: World | Same(x, w) :: Surely(rest, s, x, post)
    requires Cv(w.mem, cv) != 0 ==> forall s: Regs, x: World | Same(x, w) && s.cv == cv :: Surely(code, s, x, post)
    ensures Surely([SETCV, cv] + ([SETBYTE, 0] + ([VB, WACK] + ([ITSKIP] + code))), r, w, post)
  {
    hide Surely, PacketOf, Decode;
    var s := r.(cv := cv, value := 0);
    var t := s.(ack := Cv(w.mem, cv) == 0);
    var x := w.(last := PacketOf(VB, s));
    assert Same(x, w);
    RunsSkip(ITSKIP, code, rest, t, x, post);
    RunsTest(cv, 0, [ITSKIP] + code, r, w, post);
  }

  /** The part of the extended section after CV 20 has been read and found good. */
  lemma ReadsCv19(rest: seq<byte>, r: Regs, w: World, post: Outcome, result: int)
    requires w.truthful && result == r.value * 100 + Cv(w.mem, 19) % 128 % 100
    requires forall s: Regs, x: World | Same(x, w) :: post(result, s, x)
    ensures Surely([STASHLOCOID] + ([SETCV, 19] + ReadByte([NAKFAIL] + ([COMBINE1920] + rest))), r, w, post)
  {
    hide Surely, PacketOf, Decode, Combine1920, ReadByte;
    var c2 := [COMBINE1920] + rest;
    var c1 := [NAKFAIL] + c2;
    var r1 := r.(stash := r.value);
    var r2 := r1.(cv := 19);
    var r3 := r2.(value := Cv(w.mem, 19), bit := 255, ack := true);
    var w3 := w.(last := PacketOf(VB, r3));
    RunsCombine(rest, r3, w3, post, result);
    RunsNakFail(c2, r3, w3, post);
    RunsReadByte(c1, r2, w, post);
    RunsSet(SETCV, 19, ReadByte(c1), r1, w, post);
    RunsLoad(STASHLOCOID, [SETCV, 19] + ReadByte(c1), r, w, post);
  }

  lemma RunsCombine(rest: seq<byte>, r: Regs, w: World, post: Outcome, result: int)
    requires result == r.stash * 100 + r.value % 128 % 100
    requires forall s: Regs :: post(result, s, w)
    ensures Surely([COMBINE1920] + rest, r, w, post)
  {
    assert Decode([COMBINE1920] + rest, r) == Combine1920(r);
  }

  lemma ReadsCv20(rest: seq<byte>, r: Regs, w: World, post: Outcome)
    requires w.truthful && r.cv == 20 && Cv(w.mem, 20) != 0
    requires if IsExtended(w.mem) then forall s: Regs, x: World | Same(x, w) :: post(ExtendedAddress(w.mem), s, x)
             else forall s: Regs, x: World | Same(x, w) :: Surely(rest, s, x, post)
    ensures Surely(ReadByte([NAKSKIP] + ([BAD20SKIP] + ([STASHLOCOID] + ([SETCV, 19] +
                   ReadByte([NAKFAIL] + ([COMBINE1920] + ([SKIPTARGET] + rest))))))), r, w, post)
  {
    hide Surely, PacketOf, Decode;
    var v := Cv(w.mem, 20);
    var end := [SKIPTARGET] + rest;
    var c7 := [STASHLOCOID] + ([SETCV, 19] + ReadByte([NAKFAIL] + ([COMBINE1920] + end)));
    var r4 := r.(value := v, bit := 255, ack := true);
    var w4 := w.(last := PacketOf(VB, r4));
    ExtendedConsistSkips(rest);
    if v <= 120 {
      ReadsCv19(end, r4, w4, post, ExtendedAddress(w.mem));
    }
    RunsBad20(c7, rest, r4, w4, post);
    RunsSkip(NAKSKIP, [BAD20SKIP] + c7, rest, r4, w4, post);
    RunsReadByte([NAKSKIP] + ([BAD20SKIP] + c7), r, w, post);
  }

  lemma ExtendedConsistRuns(rest: seq<byte>, r0: Regs, w0: World, post: Outcome)
    requires w0.truthful
    requires if IsExtended(w0.mem) then forall r: Regs, w: World | Same(w, w0) :: post(ExtendedAddress(w0.mem), r, w)
             else forall r: Regs, w: World | Same(w, w0) :: Surely(rest, r, w, post)
    ensures Surely(ExtendedConsist(rest), r0, w0, post)
  {
    hide Surely, PacketOf, Decode;
    var code := ReadByte([NAKSKIP] + ([BAD20SKIP] + ([STASHLOCOID] + ([SETCV, 19] +
                ReadByte([NAKFAIL] + ([COMBINE1920] + ([SKIPTARGET] + rest)))))));
    if Cv(w0.mem, 20) != 0 {
      forall r: Regs, w: World | Same(w, w0) && r.cv == 20
        ensures Surely(code, r, w, post)
      {
        ReadsCv20(rest, r, w, post);
      }
    }
    ExtendedConsistSkips(rest);
    SkipsIfZero(20, code, rest, r0, w0, post);
  }

  /** What LOCO_READ_CONSIST_PROG calls back. */
  function ConsistAddress(m: Memory): int {
    if IsExtended(m) then ExtendedAddress(m) else Cv(m, 19) % 128
  }

  /** For every decoder memory, the consist reader calls back exactly what CVs 20 and 19 say. */
  lemma ReadConsistRuns(r0: Regs, w0: World)
    requires w0.truthful
    ensures Surely(LOCO_READ_CONSIST_PROG, r0, w0, CallsBack(ConsistAddress(w0.mem), w0.mem))
  {
    hide Surely, PacketOf, Decode;
    var post := CallsBack(ConsistAddress(w0.mem), w0.mem);
    var c7 := ReadByte([ITCB7] + [CALLFAIL]);
    var c6 := [ITC0] + c7;
    var c5 := [VB, WACK] + c6;
    var c4 := [SETBYTE, 128] + c5;
    var c3 := [ITC0] + c4;
    var c1 := [SETCV, 19] + ([SETBYTE, 0] + ([VB, WACK] + c3));
    if !IsExtended(w0.mem) {
      forall r: Regs, w: World | Same(w, w0)
        ensures Surely(c1, r, w, post)
      {
        var v := Cv(w0.mem, 19);
        var r2 := r.(cv := 19, value := 0);
        var r3 := r2.(ack := v == 0);
        var w3 := w.(last := PacketOf(VB, r2));
        var r4 := r3.(value := 128);
        var r5 := r4.(ack := v == 128);
        var w5 := w3.(last := PacketOf(VB, r4));
        var r6 := r5.(value := v, bit := 255, ack := true);
        var w6 := w5.(last := PacketOf(VB, r6));
        RunsCall(ITCB7, [CALLFAIL], r6, w6, post);
        RunsReadByte([ITCB7] + [CALLFAIL], r5, w5, post);
        RunsCall(ITC0, c7, r5, w5, post);
        RunsVerify(c6, r4, w3, post);
        RunsSet(SETBYTE, 128, c5, r3, w3, post);
        RunsCall(ITC0, c4, r3, w3, post);
        RunsTest(19, 0, c3, r, w, post);
      }
    }
    ExtendedConsistRuns(c1, r0, w0, post);
    RunsBaseline(ExtendedConsist(c1), r0, w0, post);
  }

  lemma RunsBaseline(rest: seq<byte>, r: Regs, w: World, post: Outcome)
    ensures Surely(rest, r, w, post) ==> Surely([BASELINE] + rest, r, w, post)
  {
    assert ([BASELINE] + rest)[1..] == rest;
  }

  /** What LOCO_DRIVEAWAY_PROG calls back: the consist if there is one, else the loco itself. */
  function DriveawayAddress(m: Memory): int {
    if IsExtended(m) then ExtendedAddress(m)
    else if Cv(m, 19) % 128 != 0 then Cv(m, 19) % 128
    else OwnAddress(m)
  }

  /** Reads a non-zero CV 19: a consist address unless it is only the direction bit. */
  lemma SimpleConsistRuns(rest: seq<byte>, r3: Regs, w3: World, post: Outcome)
    requires w3.truthful && r3.cv == 19 && Cv(w3.mem, 19) != 0
    requires if Cv(w3.mem, 19) == 128 then forall r: Regs, w: World | Same(w, w3) :: Surely(rest, r, w, post)
             else forall r: Regs, w: World | Same(w, w3) :: post(Cv(w3.mem, 19) % 128, r, w)
    ensures Surely([SETBYTE, 128] + ([VB, WACK] + ([ITSKIP] + ReadByte([ITCB7] + ([SKIPTARGET] + rest)))), r3, w3, post)
  {
    hide Surely, PacketOf, Decode;
    var own := [SKIPTARGET] + rest;
    var c7 := ReadByte([ITCB7] + own);
    var v := Cv(w3.mem, 19);
    var r4 := r3.(value := 128);
    var r5 := r4.(ack := v == 128);
    var w5 := w3.(last := PacketOf(VB, r4));
    ConsistSkips(rest);
    if v != 128 {
      var r6 := r5.(value := v, bit := 255, ack := true);
      RunsCall(ITCB7, own, r6, w5.(last := PacketOf(VB, r6)), post);
      RunsReadByte([ITCB7] + own, r5, w5, post);
    }
    RunsSkip(ITSKIP, c7, rest, r5, w5, post);
    RunsVerify([ITSKIP] + c7, r4, w3, post);
    RunsSet(SETBYTE, 128, [VB, WACK] + ([ITSKIP] + c7), r3, w3, post);
  }

  /** The part of LOCO_DRIVEAWAY_PROG that looks at CV 19, with `rest` for an empty one. */
  function SimpleConsist(rest: seq<byte>): seq<byte> {
    [SETCV, 19] + ([SETBYTE, 0] + ([VB, WACK] + ([ITSKIP] + ([SETBYTE, 128] + ([VB, WACK] +
    ([ITSKIP] + ReadByte([ITCB7] + ([SKIPTARGET] + rest))))))))
  }

  lemma ConsistOrRestRuns(rest: seq<byte>, r: Regs, w: World, post: Outcome)
    requires w.truthful
    requires if Cv(w.mem, 19) % 128 == 0 then forall s: Regs, x: World | Same(x, w) :: Surely(rest, s, x, post)
             else forall s: Regs, x: World | Same(x, w) :: post(Cv(w.mem, 19) % 128, s, x)
    ensures Surely(SimpleConsist(rest), r, w, post)
  {
    hide Surely, PacketOf, Decode;
    var code := [SETBYTE, 128] + ([VB, WACK] + ([ITSKIP] + ReadByte([ITCB7] + ([SKIPTARGET] + rest))));
    if Cv(w.mem, 19) != 0 {
      forall s: Regs, x: World | Same(x, w) && s.cv == 19
        ensures Surely(code, s, x, post)
      {
        SimpleConsistRuns(rest, s, x, post);
      }
    }
    ConsistSkips(rest);
    SkipsIfZero(19, code, rest, r, w, post);
  }

  lemma ConsistSkips(rest: seq<byte>)
    ensures var c7 := ReadByte([ITCB7] + ([SKIPTARGET] + rest));
      SkipsTo(c7, rest) && SkipsTo([SETBYTE, 128] + ([VB, WACK] + ([ITSKIP] + c7)), rest)
  {
    var own := [SKIPTARGET] + rest;
    var c7 := ReadByte([ITCB7] + own);
    TargetStops(rest);
    SkipsOver([ITCB7], own, rest);
    SkipsOverRead([ITCB7] + own, rest);
    SkipsOver([ITSKIP], c7, rest);
    SkipsOver([VB, WACK], [ITSKIP] + c7, rest);
    SkipsOver([SETBYTE, 128], [VB, WACK] + ([ITSKIP] + c7), rest);
  }

  lemma DriveawayRuns(r0: Regs, w0: World)
    requires w0.truthful
    ensures Surely(LOCO_DRIVEAWAY_PROG, r0, w0, CallsBack(DriveawayAddress(w0.mem), w0.mem))
  {
    hide Surely, PacketOf, Decode;
    var post := CallsBack(DriveawayAddress(w0.mem), w0.mem);
    var c1 := SimpleConsist(OWN_ADDRESS);
    if !IsExtended(w0.mem) {
      forall r: Regs, w: World | Same(w, w0)
        ensures Surely(c1, r, w, post)
      {
        if Cv(w0.mem, 19) % 128 == 0 {
          forall s: Regs, x: World | Same(x, w)
            ensures Surely(OWN_ADDRESS, s, x, post)
          {
            OwnAddressRuns(s, x);
          }
        }
        ConsistOrRestRuns(OWN_ADDRESS, r, w, post);
      }
    }
    ExtendedConsistRuns(c1, r0, w0, post);
    RunsBaseline(ExtendedConsist(c1), r0, w0, post);
  }

  // ---------- Writing addresses ----------

  /** Writing the current CV, and verifying it if there was no ack, calls back 1. */
  lemma WriteOrVerifyRuns(r0: Regs, w0: World, post: Outcome)
    requires w0.truthful && IsCv(r0.cv)
    requires forall r: Regs, w: World | w.truthful && w.mem == w0.mem[r0.cv - 1 := r0.value] :: post(1, r, w)
    ensures Surely(WRITE_OR_VERIFY, r0, w0, post)
  {
    hide Surely, PacketOf, Decode;
    var c3 := [ITC1] + [CALLFAIL];
    var c2 := [VB, WACK] + c3;
    var w1 := w0.(mem := w0.mem[r0.cv - 1 := r0.value], last := PacketOf(WB, r0));
    forall a: bool
      ensures Surely([ITC1] + c2, r0.(ack := a), w1, post)
    {
      var r1 := r0.(ack := a);
      var r2 := r1.(ack := true);
      RunsCall(ITC1, [CALLFAIL], r2, w1.(last := PacketOf(VB, r1)), post);
      RunsVerify(c3, r1, w1, post);
      RunsCall(ITC1, c2, r1, w1, post);
    }
    RunsWrite([ITC1] + c2, r0, w0, post);
  }

  function WithCv(m: Memory, cv: int, v: byte): Memory
    requires IsCv(cv)
  {
    m[cv - 1 := v]
  }

  /** The low byte of the word goes to the last CV. */
  lemma LastCvRuns(cv: byte, r: Regs, w: World, post: Outcome)
    requires w.truthful && IsCv(cv)
    requires forall s: Regs, x: World | x.truthful && x.mem == WithCv(w.mem, cv, LowByte(r.word)) :: post(1, s, x)
    ensures Surely([SETCV, cv] + ([SETBYTEL] + WRITE_OR_VERIFY), r, w, post)
  {
    hide Surely, PacketOf, Decode;
    WriteOrVerifyRuns(r.(cv := cv, value := LowByte(r.word)), w, post);
    RunsLoad(SETBYTEL, WRITE_OR_VERIFY, r.(cv := cv), w, post);
    RunsSet(SETCV, cv, [SETBYTEL] + WRITE_OR_VERIFY, r, w, post);
  }

  lemma ClearConsistRuns(rest: seq<byte>, r0: Regs, w0: World, post: Outcome)
    requires w0.truthful
    requires forall r: Regs, w: World
      | r.word == r0.word && w.truthful && w.mem == WithCv(WithCv(w0.mem, 20, 0), 19, 0) :: Surely(rest, r, w, post)
    ensures Surely(ClearConsist(rest), r0, w0, post)
  {
    hide Surely, PacketOf, Decode;
    var c3 := [SETCV, 19] + ([SETBYTE, 0] + ([WB, WACK] + rest));
    var r1 := r0.(cv := 20, value := 0);
    var w1 := w0.(mem := WithCv(w0.mem, 20, 0), last := PacketOf(WB, r1));
    forall a: bool
      ensures Surely(c3, r1.(ack := a), w1, post)
    {
      var r2 := r1.(ack := a);
      var r3 := r2.(cv := 19, value := 0);
      RunsWrite(rest, r3, w1, post);
      RunsSet(SETBYTE, 0, [WB, WACK] + rest, r2.(cv := 19), w1, post);
      RunsSet(SETCV, 19, [SETBYTE, 0] + ([WB, WACK] + rest), r2, w1, post);
    }
    RunsWrite(c3, r1, w0, post);
    RunsSet(SETBYTE, 0, [WB, WACK] + c3, r0.(cv := 20), w0, post);
    RunsSet(SETCV, 20, [SETBYTE, 0] + ([WB, WACK] + c3), r0, w0, post);
  }

  /** Clears or sets bit 5 of CV 29 and checks it. */
  lemma FlagRuns(long: bool, rest: seq<byte>, r0: Regs, w0: World, post: Outcome)
    requires w0.truthful
    requires forall r: Regs, w: World
      | r.word == r0.word && w.truthful && w.mem == WithCv(w0.mem, 29, WithBit(Cv(w0.mem, 29), 5, long))
      :: Surely(rest, r, w, post)
    ensures var write, verify := if long then W1 else W0, if long then V1 else V0;
      Surely([SETCV, 29] + ([SETBIT, 5] + ([write, WACK] + ([verify, WACK] + ([NAKFAIL] + rest)))), r0, w0, post)
  {
    hide Surely, PacketOf, Decode;
    var write, verify := if long then W1 else W0, if long then V1 else V0;
    var c4 := [NAKFAIL] + rest;
    var c3 := [verify, WACK] + c4;
    var r2 := r0.(cv := 29, bit := 5);
    var m := WithCv(w0.mem, 29, WithBit(Cv(w0.mem, 29), 5, long));
    var w3 := w0.(mem := m, last := PacketOf(write, r2));
    SetBitChangesOneBit(Cv(w0.mem, 29), 5, long, 5);
    forall a: bool
      ensures Surely(c3, r2.(ack := a), w3, post)
    {
      var r3 := r2.(ack := a);
      var r4 := r3.(ack := true);
      RunsNakFail(rest, r4, w3.(last := PacketOf(verify, r3)), post);
      RunsVerifyBit(verify, c4, r3, w3, post);
    }
    RunsWriteBit(write, c3, r2, w0, post);
    RunsSet(SETBIT, 5, [write, WACK] + c3, r0.(cv := 29), w0, post);
    RunsSet(SETCV, 29, [SETBIT, 5] + ([write, WACK] + c3), r0, w0, post);
  }

  /** The memory after setting a loco address: consist cleared, flag set or cleared, address stored. */
  function WithAddress(m: Memory, id: int): Memory
    requires 1 <= id <= 10239
  {
    var flagged := WithCv(WithCv(m, 20, 0), 19, 0);
    var long := id > HIGHEST_SHORT_ADDR;
    var f := WithCv(flagged, 29, WithBit(Cv(flagged, 29), 5, long));
    if long then WithCv(WithCv(f, 17, 192 + id / 256), 18, id % 256) else WithCv(f, 1, id)
  }

  lemma ShortLocoIdRuns(id: int, r0: Regs, w0: World)
    requires 1 <= id <= HIGHEST_SHORT_ADDR && r0.word == id && w0.truthful
    ensures Surely(SHORT_LOCO_ID_PROG, r0, w0, CallsBack(1, WithAddress(w0.mem, id)))
  {
    var post := CallsBack(1, WithAddress(w0.mem, id));
    var c2 := [SETCV, 1] + ([SETBYTEL] + WRITE_OR_VERIFY);
    var c1 := [SETCV, 29] + ([SETBIT, 5] + ([W0, WACK] + ([V0, WACK] + ([NAKFAIL] + c2))));
    var cleared := WithCv(WithCv(w0.mem, 20, 0), 19, 0);
    forall r: Regs, w: World | r.word == id && w.truthful && w.mem == cleared
      ensures Surely(c1, r, w, post)
    {
      forall s: Regs, x: World
        | s.word == id && x.truthful && x.mem == WithCv(w.mem, 29, WithBit(Cv(w.mem, 29), 5, false))
        ensures Surely(c2, s, x, post)
      {
        LastCvRuns(1, s, x, post);
      }
      FlagRuns(false, c2, r, w, post);
    }
    ClearConsistRuns(c1, r0, w0, post);
    RunsBaseline(ClearConsist(c1), r0, w0, post);
  }

  /** CV 17 by write or verify, then CV 18. */
  lemma LongTailRuns(r0: Regs, w0: World, post: Outcome)
    requires w0.truthful
    requires forall r: Regs, w: World
      | w.truthful && w.mem == WithCv(WithCv(w0.mem, 17, HighByte(r0.word)), 18, LowByte(r0.word)) :: post(1, r, w)
    ensures Surely([SETCV, 17] + ([SETBYTEH] + ([WB, WACK] + ([ITSKIP] + ([VB, WACK] + ([ITSKIP] + ([CALLFAIL] +
                   ([SKIPTARGET] + ([SETCV, 18] + ([SETBYTEL] + WRITE_OR_VERIFY))))))))), r0, w0, post)
  {
    hide Surely, PacketOf, Decode;
    var c9 := [SETCV, 18] + ([SETBYTEL] + WRITE_OR_VERIFY);
    var c7 := [CALLFAIL] + ([SKIPTARGET] + c9);
    var c6 := [ITSKIP] + c7;
    var c5 := [VB, WACK] + c6;
    TargetStops(c9);
    SkipsOver([CALLFAIL], [SKIPTARGET] + c9, c9);
    SkipsOver([ITSKIP], c7, c9);
    SkipsOver([VB, WACK], c6, c9);
    var r2 := r0.(cv := 17, value := HighByte(r0.word));
    var w2 := w0.(mem := WithCv(w0.mem, 17, r2.value), last := PacketOf(WB, r2));
    forall a: bool
      ensures Surely([ITSKIP] + c5, r2.(ack := a), w2, post)
    {
      var r3 := r2.(ack := a);
      var r4 := r3.(ack := true);
      var w4 := w2.(last := PacketOf(VB, r3));
      LastCvRuns(18, r4, w4, post);
      RunsSkip(ITSKIP, c7, c9, r4, w4, post);
      RunsVerify(c6, r3, w2, post);
      LastCvRuns(18, r3, w2, post);
      RunsSkip(ITSKIP, c5, c9, r3, w2, post);
    }
    RunsWrite([ITSKIP] + c5, r2, w0, post);
    RunsLoad(SETBYTEH, [WB, WACK] + ([ITSKIP] + c5), r0.(cv := 17), w0, post);
    RunsSet(SETCV, 17, [SETBYTEH] + ([WB, WACK] + ([ITSKIP] + c5)), r0, w0, post);
  }

  lemma LongLocoIdRuns(id: int, r0: Regs, w0: World)
    requires HIGHEST_SHORT_ADDR < id <= 10239 && r0.word == id + 0xC000 && w0.truthful
    ensures Surely(LONG_LOCO_ID_PROG, r0, w0, CallsBack(1, WithAddress(w0.mem, id)))
  {
    var post := CallsBack(1, WithAddress(w0.mem, id));
    var c2 := [SETCV, 17] + ([SETBYTEH] + ([WB, WACK] + ([ITSKIP] + ([VB, WACK] + ([ITSKIP] + ([CALLFAIL] +
              ([SKIPTARGET] + ([SETCV, 18] + ([SETBYTEL] + WRITE_OR_VERIFY)))))))));
    var c1 := [SETCV, 29] + ([SETBIT, 5] + ([W1, WACK] + ([V1, WACK] + ([NAKFAIL] + c2))));
    var cleared := WithCv(WithCv(w0.mem, 20, 0), 19, 0);
    assert HighByte(r0.word) == 192 + id / 256 && LowByte(r0.word) == id % 256;
    forall r: Regs, w: World | r.word == r0.word && w.truthful && w.mem == cleared
      ensures Surely(c1, r, w, post)
    {
      forall s: Regs, x: World
        | s.word == r.word && x.truthful && x.mem == WithCv(w.mem, 29, WithBit(Cv(w.mem, 29), 5, true))
        ensures Surely(c2, s, x, post)
      {
        LongTailRuns(s, x, post);
      }
      FlagRuns(true, c2, r, w, post);
    }
    ClearConsistRuns(c1, r0, w0, post);
    RunsBaseline(ClearConsist(c1), r0, w0, post);
  }

  // ---------- Consist addresses ----------

  /** The CV values that DCC::setConsistId computes. */
  function ConsistCvs(id: int, reverse: bool): (byte, byte)
    requires 0 <= id <= 10239
  {
    var cv20 := if id <= HIGHEST_SHORT_ADDR then 0 else id / 100;
    var cv19 := if id <= HIGHEST_SHORT_ADDR then id else id % 100;
    (cv20, cv19 + if reverse then 128 else 0)
  }

  /** A consist write either calls back 1 with both CVs stored, or -4 when CV 20 was needed but
      its write was not acked. */
  ghost function ConsistOutcome(word: int, m: Memory): Outcome {
    (v: int, r: Regs, w: World) =>
      && w.truthful
      && ((v == 1 && w.mem == WithCv(WithCv(m, 20, HighByte(word)), 19, LowByte(word)))
          || (v == -4 && HighByte(word) != 0))
  }

  lemma RunsFailIfNonzero(rest: seq<byte>, r: Regs, w: World, post: Outcome)
    requires r.value != 0 ==> post(-4, r, w)
    ensures Surely(rest, r, w, post) ==> Surely([FAIL_IF_NONZERO_NAK] + rest, r, w, post)
  {
    assert ([FAIL_IF_NONZERO_NAK] + rest)[1..] == rest;
  }

  /** CONSIST_ID_PROG after the write of CV 20. */
  lemma ConsistTailRuns(r: Regs, w: World, post: Outcome)
    requires w.truthful
    requires !r.ack && r.value != 0 ==> post(-4, r, w)
    requires forall s: Regs, x: World | x.truthful && x.mem == WithCv(w.mem, 19, LowByte(r.word)) :: post(1, s, x)
    ensures Surely([ITSKIP] + ([FAIL_IF_NONZERO_NAK] + ([SKIPTARGET] + ([SETCV, 19] + ([SETBYTEL] + WRITE_OR_VERIFY)))),
                   r, w, post)
  {
    var c7 := [SETCV, 19] + ([SETBYTEL] + WRITE_OR_VERIFY);
    var c6 := [SKIPTARGET] + c7;
    var c5 := [FAIL_IF_NONZERO_NAK] + c6;
    hide Surely, PacketOf, Decode;
    TargetStops(c7);
    SkipsOver([FAIL_IF_NONZERO_NAK], c6, c7);
    LastCvRuns(19, r, w, post);
    RunsLoad(SKIPTARGET, c7, r, w, post);
    if !r.ack {
      RunsFailIfNonzero(c6, r, w, post);
    }
    RunsSkip(ITSKIP, c5, c7, r, w, post);
  }

  lemma ConsistIdRuns(r0: Regs, w0: World)
    requires w0.truthful
    ensures Surely(CONSIST_ID_PROG, r0, w0, ConsistOutcome(r0.word, w0.mem))
  {
    hide Surely, PacketOf, Decode;
    var post := ConsistOutcome(r0.word, w0.mem);
    var c4 := [ITSKIP] + ([FAIL_IF_NONZERO_NAK] + ([SKIPTARGET] + ([SETCV, 19] + ([SETBYTEL] + WRITE_OR_VERIFY))));
    var r2 := r0.(cv := 20, value := HighByte(r0.word));
    var w2 := w0.(mem := WithCv(w0.mem, 20, r2.value), last := PacketOf(WB, r2));
    forall a: bool
      ensures Surely(c4, r2.(ack := a), w2, post)
    {
      ConsistTailRuns(r2.(ack := a), w2, post);
    }
    RunsWrite(c4, r2, w0, post);
    RunsLoad(SETBYTEH, [WB, WACK] + c4, r0.(cv := 20), w0, post);
    RunsSet(SETCV, 20, [SETBYTEH] + ([WB, WACK] + c4), r0, w0, post);
    RunsBaseline([SETCV, 20] + ([SETBYTEH] + ([WB, WACK] + c4)), r0, w0, post);
  }
}

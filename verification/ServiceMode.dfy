/** Main results about service mode: whole runs of the interpreter, with any delays, retries and
    power waits, from the request to the value that the caller gets back. */
module ServiceMode {
  import opened Bytes
  import opened AckVm
  import opened Decoder
  import opened AckLogic
  import opened AckPrograms
  import opened AckBlocks
  import opened LocoAddress

  /** The interpreter as DCCACK::Setup leaves it. */
  predicate Begins(s: State, prog: seq<byte>) {
    s.active && s.code == prog && s.job.prog == prog && s.sent == [] && s.calls == []
  }

  /** A run that has given its result to the user callback. */
  ghost predicate Finished(s: State, inputs: seq<Input>, w: World) {
    HonestRun(w, s, inputs) && !Run(s, inputs).active
  }

  /** A program that `Surely` calls back one value on one memory delivers it, over any run. */
  lemma Delivers(value: int, m: Memory, s: State, inputs: seq<Input>, w: World)
    requires s.active && s.sent == [] && s.calls == [] && Finished(s, inputs, w)
    requires Surely(s.code, s.regs, w, CallsBack(value, m))
    requires value == -1 ==> forall r: Regs, x: World | x.truthful && x.mem == m ::
      Surely(s.job.prog, r, x, CallsBack(value, m))
    ensures Run(s, inputs).calls == [ToInt16(value)]
    ensures After(w, Run(s, inputs).sent).truthful && After(w, Run(s, inputs).sent).mem == m
  {
    var post := CallsBack(value, m);
    assert Restartable(s.job.prog, post);
    CallsBackOnly(s, inputs, w, post);
  }

  // ---------- Loco addresses ----------

  datatype Request = Refused | Program(prog: seq<byte>, word: int)

  /** DCC::setLocoId: which program runs on which word; `|` on bits that do not overlap. */
  function SetLocoId(id: int): Request {
    if id < 1 || id > 10239 then Refused
    else if id <= HIGHEST_SHORT_ADDR then Program(SHORT_LOCO_ID_PROG, id)
    else Program(LONG_LOCO_ID_PROG, Or(id, 0xC000))
  }

  /** What DCCEXParser::callback_Rloco makes of a result. */
  datatype Reply = Failure(code: int) | Loco(id: int) | LongUnsupported(id: int)

  function RlocoReply(result: int): Reply {
    if result <= 0 then Failure(result)
    else
      var long := (result / LONG_ADDR_MARKER) % 2 == 1;
      var id := if long then result - LONG_ADDR_MARKER else result;
      if long && id <= HIGHEST_SHORT_ADDR then LongUnsupported(id) else Loco(id)
  }

  lemma LocoIdWord(id: int)
    requires SetLocoId(id).Program?
    ensures SetLocoId(id).word == if id <= HIGHEST_SHORT_ADDR then id else id + 0xC000
  {
    if id > HIGHEST_SHORT_ADDR {
      assert Pow2(14) == 16384;
      OrLow(id, 3, 14);
    }
  }

  lemma LocoIdProgramRuns(id: int, r: Regs, w: World)
    requires SetLocoId(id).Program? && w.truthful && r.word == SetLocoId(id).word
    ensures Surely(SetLocoId(id).prog, r, w, CallsBack(1, WithAddress(w.mem, id)))
  {
    LocoIdWord(id);
    if id <= HIGHEST_SHORT_ADDR {
      ShortLocoIdRuns(id, r, w);
    } else {
      LongLocoIdRuns(id, r, w);
    }
  }

  lemma SetLocoIdRuns(id: int, s: State, inputs: seq<Input>, w: World)
    requires SetLocoId(id).Program? && Begins(s, SetLocoId(id).prog) && s.regs.word == SetLocoId(id).word
    requires w.truthful && Finished(s, inputs, w)
    ensures Run(s, inputs).calls == [1]
    ensures var x := After(w, Run(s, inputs).sent); x.truthful && x.mem == WithAddress(w.mem, id)
  {
    LocoIdProgramRuns(id, s.regs, w);
    FitsInt16(1);
    Delivers(1, WithAddress(w.mem, id), s, inputs, w);
  }

  /** On every decoder memory, DCC::getLocoId calls back what CVs 29, 17, 18 and 1 say. */
  lemma GetLocoIdRuns(s: State, inputs: seq<Input>, w: World)
    requires Begins(s, LOCO_READ_ID_PROG) && w.truthful && Finished(s, inputs, w)
    ensures Run(s, inputs).calls == [ToInt16(OwnAddress(w.mem))]
    ensures After(w, Run(s, inputs).sent).mem == w.mem
  {
    forall r: Regs, x: World | x.truthful && x.mem == w.mem
      ensures Surely(LOCO_READ_ID_PROG, r, x, CallsBack(OwnAddress(w.mem), w.mem))
    {
      OwnAddressRuns(r, x);
      RunsBaseline(OWN_ADDRESS, r, x, CallsBack(OwnAddress(w.mem), w.mem));
    }
    Delivers(OwnAddress(w.mem), w.mem, s, inputs, w);
  }

  /** So what is printed tells long addresses from short ones.  CV 17 of a long address is 192 to 231; others below
      64 look like one too, and are no failure. */
  lemma AddressIsPrinted(m: Memory)
    ensures var r, cv17 := RlocoReply(ToInt16(OwnAddress(m))), Cv(m, 17);
      var long := cv17 % 64 * 256 + Cv(m, 18);
      if Bit(Cv(m, 29), 5) then
        if 64 <= cv17 < 192 then r.Failure?
        else r == if long <= HIGHEST_SHORT_ADDR then LongUnsupported(long) else Loco(long)
      else if 1 <= Cv(m, 1) <= 127 then r == Loco(Cv(m, 1))
      else r.Failure?
  {
    var cv17, cv18 := Cv(m, 17), Cv(m, 18);
    hide Bit;
    LongIsPrinted(cv17, cv18);
    FitsInt16(Cv(m, 1));
    FitsInt16(-1);
  }

  lemma LongIsPrinted(cv17: byte, cv18: byte)
    ensures var r := RlocoReply(ToInt16(MarkLong(cv18 + (cv17 - 192) * 256)));
      var long := cv17 % 64 * 256 + cv18;
      if 64 <= cv17 < 192 then r.Failure?
      else r == if long <= HIGHEST_SHORT_ADDR then LongUnsupported(long) else Loco(long)
  {
  }

  lemma StoredAddress(m: Memory, id: int)
    requires 1 <= id <= 10239
    ensures RlocoReply(ToInt16(OwnAddress(WithAddress(m, id)))) == Loco(id)
  {
    SetBitChangesOneBit(Cv(m, 29), 5, id > HIGHEST_SHORT_ADDR, 5);
  }

  /** An address that has been written is read back, from any decoder and any earlier memory. */
  lemma LocoIdRoundTrip(id: int, a: State, aIn: seq<Input>, b: State, bIn: seq<Input>, w: World)
    requires 1 <= id <= 10239 && w.truthful
    requires Begins(a, SetLocoId(id).prog) && a.regs.word == SetLocoId(id).word && Finished(a, aIn, w)
    requires Begins(b, LOCO_READ_ID_PROG) && Finished(b, bIn, After(w, Run(a, aIn).sent))
    ensures Run(a, aIn).calls == [1]
    ensures |Run(b, bIn).calls| == 1 && RlocoReply(Run(b, bIn).calls[0]) == Loco(id)
  {
    SetLocoIdRuns(id, a, aIn, w);
    GetLocoIdRuns(b, bIn, After(w, Run(a, aIn).sent));
    StoredAddress(w.mem, id);
  }

  // ---------- Consist addresses ----------

  /** DCC::setConsistId */
  function SetConsistId(id: int, reverse: bool): Request {
    if id < 0 || id > 10239 then Refused
    else
      var (cv20, cv19) := ConsistCvs(id, reverse);
      Program(CONSIST_ID_PROG, cv20 * 256 + cv19)
  }

  lemma DeliversConsist(s: State, inputs: seq<Input>, w: World)
    requires s.active && s.sent == [] && s.calls == [] && Finished(s, inputs, w)
    requires Surely(s.code, s.regs, w, ConsistOutcome(s.regs.word, w.mem))
    ensures var x := After(w, Run(s, inputs).sent);
      var word := s.regs.word;
      && x.truthful
      && ((Run(s, inputs).calls == [1] && x.mem == WithCv(WithCv(w.mem, 20, HighByte(word)), 19, LowByte(word)))
          || (Run(s, inputs).calls == [-4] && HighByte(word) != 0))
  {
    var post := ConsistOutcome(s.regs.word, w.mem);
    assert ToInt16(1) == 1 && ToInt16(-4) == -4;
    hide Surely, PacketOf, Decode, Run, After, HighByte, LowByte, ToInt16;
    ConsistRestarts(s.job.prog, s.regs.word, w.mem);
    CallsBackOnly(s, inputs, w, post);
  }

  lemma ConsistRestarts(prog: seq<byte>, word: int, m: Memory)
    ensures Restartable(prog, ConsistOutcome(word, m))
  {
    hide Surely;
  }

  lemma SetConsistIdRuns(id: int, reverse: bool, s: State, inputs: seq<Input>, w: World)
    requires 0 <= id <= 10239 && w.truthful
    requires Begins(s, CONSIST_ID_PROG) && s.regs.word == SetConsistId(id, reverse).word && Finished(s, inputs, w)
    ensures var (cv20, cv19) := ConsistCvs(id, reverse);
      var x := After(w, Run(s, inputs).sent);
      && x.truthful
      && ((Run(s, inputs).calls == [1] && x.mem == WithCv(WithCv(w.mem, 20, cv20), 19, cv19))
          || (Run(s, inputs).calls == [-4] && id > HIGHEST_SHORT_ADDR))
  {
    hide Surely, PacketOf, Decode;
    ConsistIdRuns(s.regs, w);
    ConsistWord(id, reverse);
    DeliversConsist(s, inputs, w);
  }

  lemma ConsistWord(id: int, reverse: bool)
    requires 0 <= id <= 10239
    ensures var (cv20, cv19) := ConsistCvs(id, reverse);
      && HighByte(SetConsistId(id, reverse).word) == cv20 && LowByte(SetConsistId(id, reverse).word) == cv19
      && (cv20 != 0 ==> id > HIGHEST_SHORT_ADDR)
  {
  }

  lemma StoredConsist(m: Memory, id: int, reverse: bool)
    requires 0 <= id <= 10239
    ensures var (cv20, cv19) := ConsistCvs(id, reverse);
      var x := WithCv(WithCv(m, 20, cv20), 19, cv19);
      ConsistAddress(x) == id && (Cv(x, 19) >= 128 <==> reverse)
  {
  }

  lemma ConsistFits(m: Memory)
    ensures 0 <= ConsistAddress(m) && ToInt16(ConsistAddress(m)) == ConsistAddress(m)
  {
  }

  lemma GetConsistIdRuns(s: State, inputs: seq<Input>, w: World)
    requires Begins(s, LOCO_READ_CONSIST_PROG) && w.truthful && Finished(s, inputs, w)
    ensures Run(s, inputs).calls == [ConsistAddress(w.mem)]
    ensures After(w, Run(s, inputs).sent).mem == w.mem
  {
    hide Surely, PacketOf, Decode;
    ReadConsistRuns(s.regs, w);
    ConsistFits(w.mem);
    Delivers(ConsistAddress(w.mem), w.mem, s, inputs, w);
  }

  /** Whenever a consist address is accepted, exactly that number is read back. */
  lemma ConsistIdRoundTrip(id: int, reverse: bool, a: State, aIn: seq<Input>, b: State, bIn: seq<Input>, w: World)
    requires 0 <= id <= 10239 && w.truthful
    requires Begins(a, CONSIST_ID_PROG) && a.regs.word == SetConsistId(id, reverse).word && Finished(a, aIn, w)
    requires Begins(b, LOCO_READ_CONSIST_PROG) && Finished(b, bIn, After(w, Run(a, aIn).sent))
    requires Run(a, aIn).calls == [1]
    ensures Run(b, bIn).calls == [id]
    ensures Cv(After(w, Run(a, aIn).sent).mem, 19) >= 128 <==> reverse
  {
    SetConsistIdRuns(id, reverse, a, aIn, w);
    GetConsistIdRuns(b, bIn, After(w, Run(a, aIn).sent));
    StoredConsist(w.mem, id, reverse);
  }

  /** On every decoder memory, DCC::getDriveawayLocoId calls back the consist or else the loco. */
  lemma GetDriveawayLocoIdRuns(s: State, inputs: seq<Input>, w: World)
    requires Begins(s, LOCO_DRIVEAWAY_PROG) && w.truthful && Finished(s, inputs, w)
    ensures Run(s, inputs).calls == [ToInt16(DriveawayAddress(w.mem))]
  {
    hide Surely, PacketOf, Decode;
    forall r: Regs, x: World | x.truthful && x.mem == w.mem
      ensures Surely(LOCO_DRIVEAWAY_PROG, r, x, CallsBack(DriveawayAddress(w.mem), w.mem))
    {
      DriveawayRuns(r, x);
    }
    Delivers(DriveawayAddress(w.mem), w.mem, s, inputs, w);
  }

  // ---------- Reading a CV ----------

  /** A read that did not fail names a byte whose verify was the last packet, and was acked. */
  ghost function Verified(cv: int): Outcome {
    (v: int, r: Regs, w: World) =>
      r.cv == cv && (v == -1 || (0 <= v < 256 && r.ack && w.last == Message(VERIFY_BYTE, cv, v)))
  }

  lemma {:induction false} AnyReadBits(k: nat, rest: seq<byte>, r: Regs, w: World, post: Outcome)
    requires forall s: Regs, x: World | s.cv == r.cv && x.last == PacketOf(VB, s) :: Surely(rest, s, x, post)
    ensures Surely(ReadBits(k, [VB, WACK] + rest), r, w, post)
    decreases k
  {
    if k == 0 {
      RunsSend(VB, rest, r, w, post);
    } else {
      hide Surely, PacketOf, Decode;
      var more := ReadBits(k - 1, [VB, WACK] + rest);
      var x := w.Receive(PacketOf(V0, r));
      forall a: bool
        ensures Surely([MERGE] + more, r.(ack := a), x, post)
      {
        AnyReadBits(k - 1, rest, Merged(r.(ack := a)), x, post);
        RunsMerge(more, r.(ack := a), x, post);
      }
      RunsSend(V0, [MERGE] + more, r, w, post);
    }
  }

  lemma CheckedSkips(rest: seq<byte>)
    ensures SkipsTo([SETBIT, 7] + ([V1, WACK] + ([NAKFAIL] + ([SETBIT, 6] + ([SKIPTARGET] + rest)))), rest)
  {
    TargetStops(rest);
    SkipsOver([SETBIT, 6], [SKIPTARGET] + rest, rest);
    SkipsOver([NAKFAIL], [SETBIT, 6] + ([SKIPTARGET] + rest), rest);
    SkipsOver([V1, WACK], [NAKFAIL] + ([SETBIT, 6] + ([SKIPTARGET] + rest)), rest);
    SkipsOver([SETBIT, 7], [V1, WACK] + ([NAKFAIL] + ([SETBIT, 6] + ([SKIPTARGET] + rest))), rest);
  }

  /** The excursion of ReadByteChecked after its first bit, whatever the decoder answers. */
  lemma AnyExcursion(end: seq<byte>, r: Regs, w: World, post: Outcome)
    requires forall s: Regs, x: World | s.cv == r.cv :: Surely(end, s, x, post)
    requires forall s: Regs, x: World | s.cv == r.cv :: post(-1, s, x)
    ensures Surely([ITSKIP] + ([SETBIT, 7] + ([V1, WACK] + ([NAKFAIL] + ([SETBIT, 6] + ([SKIPTARGET] + end))))), r, w,
      post)
  {
    var c3 := [SETBIT, 6] + ([SKIPTARGET] + end);
    var c1 := [V1, WACK] + ([NAKFAIL] + c3);
    var r1 := r.(bit := 7);
    var x := w.Receive(PacketOf(V1, r1));
    forall a: bool
      ensures Surely([NAKFAIL] + c3, r1.(ack := a), x, post)
    {
      var r2 := r1.(ack := a);
      RunsLoad(SKIPTARGET, end, r2.(bit := 6), x, post);
      RunsSet(SETBIT, 6, [SKIPTARGET] + end, r2, x, post);
      assert ([NAKFAIL] + c3)[1..] == c3;
    }
    RunsSend(V1, [NAKFAIL] + c3, r1, w, post);
    RunsSet(SETBIT, 7, c1, r, w, post);
    CheckedSkips(end);
    RunsSkip(ITSKIP, [SETBIT, 7] + c1, end, r, w, post);
  }

  lemma AnyReadByteChecked(rest: seq<byte>, r0: Regs, w0: World, post: Outcome)
    requires forall s: Regs, x: World | s.cv == r0.cv && x.last == PacketOf(VB, s) :: Surely(rest, s, x, post)
    requires forall s: Regs, x: World | s.cv == r0.cv :: post(-1, s, x)
    ensures Surely(ReadByteChecked(rest), r0, w0, post)
  {
    hide Surely, PacketOf, Decode;
    var end := ReadBits(7, [VB, WACK] + rest);
    var c3 := [ITSKIP] + ([SETBIT, 7] + ([V1, WACK] + ([NAKFAIL] + ([SETBIT, 6] + ([SKIPTARGET] + end)))));
    var r1 := r0.(bit := 7, value := 0);
    var x := w0.Receive(PacketOf(V0, r1));
    forall s: Regs, y: World | s.cv == r0.cv
      ensures Surely(end, s, y, post)
    {
      AnyReadBits(7, rest, s, y, post);
    }
    forall a: bool
      ensures Surely([MERGE] + c3, r1.(ack := a), x, post)
    {
      AnyExcursion(end, Merged(r1.(ack := a)), x, post);
      RunsMerge(c3, r1.(ack := a), x, post);
    }
    RunsSend(V0, [MERGE] + c3, r1, w0, post);
    RunsLoad(STARTMERGE, [V0, WACK] + ([MERGE] + c3), r0, w0, post);
  }

  lemma ReadCvIsVerified(r: Regs, w: World)
    ensures Surely(READ_CV_PROG, r, w, Verified(r.cv))
  {
    var post := Verified(r.cv);
    forall s: Regs, x: World | s.cv == r.cv && x.last == PacketOf(VB, s)
      ensures Surely([ITCB] + [CALLFAIL], s, x, post)
    {
      assert Surely([CALLFAIL], s, x, post);
      RunsCall(ITCB, [CALLFAIL], s, x, post);
    }
    AnyReadByteChecked([ITCB] + [CALLFAIL], r, w, post);
    RunsBaseline(ReadByteChecked([ITCB] + [CALLFAIL]), r, w, post);
  }

  lemma VerifyPacket(w: World, sent: seq<Packet>, cv: int, v: byte)
    requires w.last == Packet(0, 0, 0) && After(w, sent).last == Message(VERIFY_BYTE, cv, v)
    ensures sent != [] && sent[|sent| - 1] == Message(VERIFY_BYTE, cv, v)
  {
    FirstByte(VERIFY_BYTE, cv);
  }

  /** With any decoder whatever, and any number of retries: a value that DCC::readCV delivers is the
      byte of the last packet sent, and the decoder acked it. */
  lemma ReadCvSound(s: State, inputs: seq<Input>) returns (v: int)
    requires Begins(s, READ_CV_PROG) && !Run(s, inputs).active
    ensures Run(s, inputs).calls == [v]
    ensures v == -1 || 0 <= v < 256
    ensures var t := Run(s, inputs);
      v != -1 ==> t.regs.ack && t.sent != [] && t.sent[|t.sent| - 1] == Message(VERIFY_BYTE, s.regs.cv, v)
  {
    var post := Verified(s.regs.cv);
    var w := World(false, seq(1024, _ => 0), Packet(0, 0, 0));
    forall r: Regs, x: World | r.cv == s.regs.cv
      ensures Surely(READ_CV_PROG, r, x, post)
    {
      ReadCvIsVerified(r, x);
    }
    v := DeliversSome(s, inputs, w, post);
    FitsInt16(v);
    if v != -1 {
      VerifyPacket(w, Run(s, inputs).sent, s.regs.cv, v);
    }
  }

  lemma DeliversSome(s: State, inputs: seq<Input>, w: World, post: Outcome) returns (v: int)
    requires s.active && s.sent == [] && s.calls == [] && !Run(s, inputs).active && !w.truthful
    requires Surely(s.code, s.regs, w, post) && Restartable(s.job.prog, post)
    ensures Run(s, inputs).calls == [ToInt16(v)]
    ensures post(v, Run(s, inputs).regs, After(w, Run(s, inputs).sent))
  {
    forall k | 0 <= k < |inputs|
      ensures Honest(w, Run(s, inputs[..k]), inputs[k])
    {
      StaysUntruthful(w, Run(s, inputs[..k]).sent);
    }
    CallsBackOnly(s, inputs, w, post);
    var t := Run(s, inputs);
    v :| t.calls == s.calls + [ToInt16(v)] && post(v, t.regs, After(w, t.sent));
  }

  lemma {:induction false} StaysUntruthful(w: World, sent: seq<Packet>)
    ensures After(w, sent).truthful == w.truthful
    decreases |sent|
  {
    if sent != [] {
      StaysUntruthful(w, sent[..|sent| - 1]);
    }
  }

  // ---------- Reading and writing any CV of a truthful decoder ----------

  lemma TruthfulExcursion(end: seq<byte>, r: Regs, w: World, post: Outcome)
    requires w.truthful && IsCv(r.cv) && r.ack == !Bit(Cv(w.mem, r.cv), 7) && r.bit == 6
    requires forall s: Regs, x: World | Same(x, w) && s.cv == r.cv && s.value == r.value && s.bit == 6 ::
      Surely(end, s, x, post)
    ensures Surely([ITSKIP] + ([SETBIT, 7] + ([V1, WACK] + ([NAKFAIL] + ([SETBIT, 6] + ([SKIPTARGET] + end))))), r, w,
      post)
  {
    hide Surely, PacketOf, Decode;
    var c3 := [SETBIT, 6] + ([SKIPTARGET] + end);
    var c1 := [V1, WACK] + ([NAKFAIL] + c3);
    var r1 := r.(bit := 7);
    var r2 := r1.(ack := true);
    var x := w.(last := PacketOf(V1, r1));
    assert Same(x, w) && Same(w, w);
    RunsLoad(SKIPTARGET, end, r2.(bit := 6), x, post);
    RunsSet(SETBIT, 6, [SKIPTARGET] + end, r2, x, post);
    RunsNakFail(c3, r2, x, post);
    if !r.ack {
      RunsVerifyBit(V1, [NAKFAIL] + c3, r1, w, post);
      RunsSet(SETBIT, 7, c1, r, w, post);
    }
    CheckedSkips(end);
    RunsSkip(ITSKIP, [SETBIT, 7] + c1, end, r, w, post);
  }

  lemma FirstBit(v: byte)
    ensures Shr(v, 7) == if Bit(v, 7) then 1 else 0
  {
    ShrToNothing(v, 8);
    ShrOnce(v, 8);
  }

  lemma TruthfulRest(rest: seq<byte>, r: Regs, w: World, post: Outcome)
    requires w.truthful && IsCv(r.cv) && r.value == Shr(Cv(w.mem, r.cv), 7) && r.bit == 6
    requires forall s: Regs, x: World | Same(x, w) && s.ack && s.value == Cv(w.mem, r.cv) :: Surely(rest, s, x, post)
    ensures Surely(ReadBits(7, [VB, WACK] + rest), r, w, post)
  {
    hide Surely, PacketOf, Decode;
    var v := Cv(w.mem, r.cv);
    var t := ReadRegs(r, v, 7);
    ReadIntoFindsByte(v, 7);
    assert Same(w.(last := PacketOf(VB, t)), w);
    RunsReadBits(7, rest, r, w, post);
  }

  lemma TruthfulReadByteChecked(rest: seq<byte>, r0: Regs, w0: World, post: Outcome)
    requires w0.truthful && IsCv(r0.cv)
    requires forall s: Regs, x: World | Same(x, w0) && s.ack && s.value == Cv(w0.mem, r0.cv) :: Surely(rest, s, x, post)
    ensures Surely(ReadByteChecked(rest), r0, w0, post)
  {
    hide Surely, PacketOf, Decode;
    var end := ReadBits(7, [VB, WACK] + rest);
    var c3 := [ITSKIP] + ([SETBIT, 7] + ([V1, WACK] + ([NAKFAIL] + ([SETBIT, 6] + ([SKIPTARGET] + end)))));
    var r1 := r0.(bit := 7, value := 0);
    var r2 := r1.(ack := !Bit(Cv(w0.mem, r0.cv), 7));
    var x := w0.(last := PacketOf(V0, r1));
    FirstBit(Cv(w0.mem, r0.cv));
    forall s: Regs, y: World | Same(y, x) && s.cv == r0.cv && s.value == Merged(r2).value && s.bit == 6
      ensures Surely(end, s, y, post)
    {
      TruthfulRest(rest, s, y, post);
    }
    TruthfulExcursion(end, Merged(r2), x, post);
    RunsMerge(c3, r2, x, post);
    RunsVerifyBit(V0, [MERGE] + c3, r1, w0, post);
    RunsLoad(STARTMERGE, [V0, WACK] + ([MERGE] + c3), r0, w0, post);
  }

  /** DCC::readCV on a truthful decoder delivers the stored byte, never a failure. */
  lemma ReadCvRuns(s: State, inputs: seq<Input>, w: World)
    requires Begins(s, READ_CV_PROG) && IsCv(s.regs.cv) && w.truthful && Finished(s, inputs, w)
    ensures Run(s, inputs).calls == [Cv(w.mem, s.regs.cv)]
  {
    hide Surely, PacketOf, Decode;
    var v := Cv(w.mem, s.regs.cv);
    var post := CallsBack(v, w.mem);
    var rest := [ITCB] + [CALLFAIL];
    forall r: Regs, x: World | Same(x, w) && r.ack && r.value == v
      ensures Surely(rest, r, x, post)
    {
      RunsCall(ITCB, [CALLFAIL], r, x, post);
    }
    TruthfulReadByteChecked(rest, s.regs, w, post);
    RunsBaseline(ReadByteChecked(rest), s.regs, w, post);
    FitsInt16(v);
    Delivers(v, w.mem, s, inputs, w);
  }

  /** DCC::writeCVByte calls back 1 and changes that CV only. */
  lemma WriteCvRuns(s: State, inputs: seq<Input>, w: World)
    requires Begins(s, WRITE_BYTE_PROG) && IsCv(s.regs.cv) && w.truthful && Finished(s, inputs, w)
    ensures Run(s, inputs).calls == [1]
    ensures var x := After(w, Run(s, inputs).sent);
      x.truthful && x.mem == WithCv(w.mem, s.regs.cv, s.regs.value)
  {
    hide Surely, PacketOf, Decode;
    var m := WithCv(w.mem, s.regs.cv, s.regs.value);
    WriteOrVerifyRuns(s.regs, w, CallsBack(1, m));
    RunsBaseline(WRITE_OR_VERIFY, s.regs, w, CallsBack(1, m));
    FitsInt16(1);
    Delivers(1, m, s, inputs, w);
  }

  // ---------- Bits, and verifying a byte ----------

  /** DCC::writeCVBit, DCC::verifyCVBit and DCC::readCVBit; the word of these requests is the bit number. */
  function WriteCvBit(bit: byte, on: bool): Request {
    if bit >= 8 then Refused else Program(if on then WRITE_BIT1_PROG else WRITE_BIT0_PROG, bit)
  }

  function VerifyCvBit(bit: byte, on: bool): Request {
    if bit >= 8 then Refused else Program(if on then VERIFY_BIT1_PROG else VERIFY_BIT0_PROG, bit)
  }

  function ReadCvBit(bit: byte): Request {
    if bit >= 8 then Refused else Program(READ_BIT_PROG, bit)
  }

  /** Writing a bit of a CV calls back 1 and changes that bit only. */
  lemma WriteBitRuns(on: bool, s: State, inputs: seq<Input>, w: World)
    requires WriteCvBit(s.regs.bit, on).Program? && Begins(s, WriteCvBit(s.regs.bit, on).prog)
    requires IsCv(s.regs.cv) && w.truthful && Finished(s, inputs, w)
    ensures Run(s, inputs).calls == [1]
    ensures var x := After(w, Run(s, inputs).sent);
      x.truthful && x.mem == WithCv(w.mem, s.regs.cv, WithBit(Cv(w.mem, s.regs.cv), s.regs.bit, on))
  {
    hide Surely, PacketOf, Decode, SetBit;
    var r, m := s.regs, WithCv(w.mem, s.regs.cv, WithBit(Cv(w.mem, s.regs.cv), s.regs.bit, on));
    var post := CallsBack(1, m);
    var (write, verify) := if on then (W1, V1) else (W0, V0);
    var end := [ITC1] + [CALLFAIL];
    var x := w.(mem := m, last := PacketOf(write, r));
    SetBitChangesOneBit(Cv(w.mem, r.cv), r.bit, on, r.bit);
    forall a: bool ensures Surely([verify, WACK] + end, r.(ack := a), x, post) {
      var t := r.(ack := a);
      RunsCall(ITC1, [CALLFAIL], t.(ack := true), x.(last := PacketOf(verify, t)), post);
      RunsVerifyBit(verify, end, t, x, post);
    }
    RunsWriteBit(write, [verify, WACK] + end, r, w, post);
    RunsBaseline([write, WACK] + ([verify, WACK] + end), r, w, post);
    assert s.code == [BASELINE] + ([write, WACK] + ([verify, WACK] + end));
    FitsInt16(1);
    Delivers(1, m, s, inputs, w);
  }

  /** Verifying a bit against either value calls back what it is: of the two ways to ask, one is acked. */
  lemma VerifyBitRuns(on: bool, s: State, inputs: seq<Input>, w: World)
    requires VerifyCvBit(s.regs.bit, on).Program? && Begins(s, VerifyCvBit(s.regs.bit, on).prog)
    requires IsCv(s.regs.cv) && w.truthful && Finished(s, inputs, w)
    ensures Run(s, inputs).calls == [if Bit(Cv(w.mem, s.regs.cv), s.regs.bit) then 1 else 0]
    ensures After(w, Run(s, inputs).sent).mem == w.mem
  {
    hide Surely, PacketOf, Decode, Bit;
    var r, b := s.regs, Bit(Cv(w.mem, s.regs.cv), s.regs.bit);
    var value := if b then 1 else 0;
    var post := CallsBack(value, w.mem);
    var (first, call1, second, call2) := if on then (V1, ITC1, V0, ITC0) else (V0, ITC0, V1, ITC1);
    var c2 := [call2] + [CALLFAIL];
    var c1 := [call1] + ([second, WACK] + c2);
    var t := r.(ack := b == on);
    var x := w.(last := PacketOf(first, r));
    RunsCall(call2, [CALLFAIL], t.(ack := true), x.(last := PacketOf(second, t)), post);
    RunsCall(call1, [second, WACK] + c2, t, x, post);
    if b != on {
      RunsVerifyBit(second, c2, t, x, post);
    }
    RunsVerifyBit(first, c1, r, w, post);
    RunsBaseline([first, WACK] + c1, r, w, post);
    assert s.code == [BASELINE] + ([first, WACK] + c1);
    FitsInt16(value);
    Delivers(value, w.mem, s, inputs, w);
  }

  /** And so does reading it. */
  lemma ReadBitRuns(s: State, inputs: seq<Input>, w: World)
    requires ReadCvBit(s.regs.bit).Program? && Begins(s, ReadCvBit(s.regs.bit).prog)
    requires IsCv(s.regs.cv) && w.truthful && Finished(s, inputs, w)
    ensures Run(s, inputs).calls == [if Bit(Cv(w.mem, s.regs.cv), s.regs.bit) then 1 else 0]
    ensures After(w, Run(s, inputs).sent).mem == w.mem
  {
    VerifyBitRuns(true, s, inputs, w);
  }

  lemma RunsBiv(rest: seq<byte>, r: Regs, w: World, post: Outcome)
    ensures Surely(rest, r.(value := r.verify), w, post) ==> Surely([BIV] + rest, r, w, post)
  {
    assert ([BIV] + rest)[1..] == rest;
  }

  /** DCC::verifyCVByte calls back the stored byte, whether or not it is the one that was expected. */
  lemma VerifyCvRuns(s: State, inputs: seq<Input>, w: World)
    requires Begins(s, VERIFY_BYTE_PROG) && IsCv(s.regs.cv) && w.truthful && Finished(s, inputs, w)
    ensures Run(s, inputs).calls == [Cv(w.mem, s.regs.cv)]
    ensures After(w, Run(s, inputs).sent).mem == w.mem
  {
    hide Surely, PacketOf, Decode;
    var v := Cv(w.mem, s.regs.cv);
    var post := CallsBack(v, w.mem);
    var rest := [ITCBV] + [CALLFAIL];
    var r := s.regs.(value := s.regs.verify);
    var t := r.(ack := v == r.value);
    var x := w.(last := PacketOf(VB, r));
    forall q: Regs, y: World | Same(y, x) && q.ack && q.value == v
      ensures Surely(rest, q, y, post)
    {
      RunsCall(ITCBV, [CALLFAIL], q, y, post);
    }
    TruthfulReadByteChecked(rest, t, x, post);
    RunsCall(ITCB, ReadByteChecked(rest), t, x, post);
    RunsVerify([ITCB] + ReadByteChecked(rest), r, w, post);
    RunsBiv([VB, WACK] + ([ITCB] + ReadByteChecked(rest)), s.regs, w, post);
    RunsBaseline([BIV] + ([VB, WACK] + ([ITCB] + ReadByteChecked(rest))), s.regs, w, post);
    FitsInt16(v);
    Delivers(v, w.mem, s, inputs, w);
  }

  /** The first thing that DCC::verifyCVByte sends, to any decoder, is whether the CV has the expected value. */
  lemma ExpectedIsAskedFirst(s: State, inputs: seq<Input>)
    requires Begins(s, VERIFY_BYTE_PROG)
    ensures var t := Run(s, inputs);
      t.sent != [] ==> t.sent[0] == Message(VERIFY_BYTE, s.regs.cv, s.regs.verify)
  {
    FirstStays(s, inputs);
  }

  /** The first packet has been sent, or the program is still in front of it. */
  predicate BeforeOrSent(s: State, cv: int, verify: byte) {
    if s.sent != [] then s.sent[0] == Message(VERIFY_BYTE, cv, verify)
    else
      && s.active && s.regs.cv == cv && s.regs.verify == verify
      && (s.code == VERIFY_BYTE_PROG || s.code == VERIFY_BYTE_PROG[1..]
          || (s.code == VERIFY_BYTE_PROG[2..] && s.regs.value == verify))
  }

  lemma FirstStep(s: State, i: Input, cv: int, verify: byte)
    requires BeforeOrSent(s, cv, verify)
    ensures BeforeOrSent(Step(s, i), cv, verify)
  {
    hide Message, ReadByteChecked;
    OnlySendsSend(s, i);
    if s.sent == [] {
      assert VERIFY_BYTE_PROG[0] == BASELINE && VERIFY_BYTE_PROG[1..][0] == BIV && VERIFY_BYTE_PROG[2..][0] == VB;
      assert VERIFY_BYTE_PROG[1..][1..] == VERIFY_BYTE_PROG[2..];
    }
  }

  lemma {:induction false} FirstStays(s: State, inputs: seq<Input>)
    requires Begins(s, VERIFY_BYTE_PROG)
    ensures BeforeOrSent(Run(s, inputs), s.regs.cv, s.regs.verify)
    decreases |inputs|
  {
    if inputs != [] {
      hide Step, BeforeOrSent;
      FirstStays(s, inputs[..|inputs| - 1]);
      FirstStep(Run(s, inputs[..|inputs| - 1]), inputs[|inputs| - 1], s.regs.cv, s.regs.verify);
    }
  }

  // ---------- Every request ends ----------

  /** Any shipped program, with any decoder: the run makes at most a fixed number of moves, at most
      ackRetry new attempts, and calls back once and only once. */
  lemma ShippedProgramsEnd(s: State, inputs: seq<Input>)
    requires Shipped(s.job.prog) && Begins(s, s.job.prog)
    ensures Busy(s, inputs) <= Measure(s)
    ensures Restarts(s, inputs) <= s.retry
    ensures |Run(s, inputs).calls| == if Run(s, inputs).active then 0 else 1
    ensures Busy(s, inputs) == Measure(s) ==> |Run(s, inputs).calls| == 1
    ensures Run(s, inputs).active ==> !Decode(Run(s, inputs).code, Run(s, inputs).regs).RanOff?
  {
    ShippedProgramsAreWellFormed(s.job.prog);
    RunsEnd(s, inputs);
    var t := Run(s, inputs);
    if t.active {
      DecodeKeepsWellFormed(t.code, t.regs);
    }
  }

  // ---------- Nobody there ----------

  lemma ReadCvBegins()
    ensures |READ_CV_PROG| > 11
    ensures READ_CV_PROG[..11]
      == [BASELINE, STARTMERGE, V0, WACK, MERGE, ITSKIP, SETBIT, 7, V1, WACK, NAKFAIL]
  {
  }

  /** The interpreter is `p` bytes into its attempt, which has sent a packet for each send in those, unanswered. */
  predicate Unheard(s: State, p: nat, restarts: nat) {
    && s.job.prog == READ_CV_PROG && p <= 10 && p != 7 && p < |READ_CV_PROG| && s.code == READ_CV_PROG[p..]
    && |s.sent| == 2 * restarts + (if p <= 2 then 0 else if p <= 8 then 1 else 2)
    && (4 <= p <= 8 || p == 10 ==> !s.regs.ack) && s.calls == []
  }

  /** What the opcode is there. */
  lemma UnheardOpcode(s: State, p: nat, restarts: nat)
    requires Unheard(s, p, restarts)
    ensures var e, next := Decode(s.code, s.regs), READ_CV_PROG[if p == 6 then 8 else p + 1..];
      if p == 0 then e == Baseline(next)
      else if p == 2 then e == Send(V0, next)
      else if p == 8 then e == Send(V1, next)
      else if p == 3 || p == 9 then e == Await(next)
      else if p == 10 then e == Call(-1, s.regs)
      else e.Next? && e.code == next && e.regs.ack == s.regs.ack
  {
    ReadCvBegins();
    hide READ_CV_PROG;
    assert s.code[0] == READ_CV_PROG[..11][p];
    assert s.code[1..] == READ_CV_PROG[p + 1..];
    if p == 6 {
      assert s.code[1..][1..] == READ_CV_PROG[8..];
    }
  }

  lemma UnheardStep(s: State, i: Input, p: nat, restarts: nat) returns (q: nat)
    requires s.active && Unheard(s, p, restarts) && i.poll != Ack
    ensures var t := Step(s, i);
      && s.retry >= t.retry && (t.retry < s.retry ==> t.retry == s.retry - 1)
      && (if t.active then Unheard(t, q, restarts + s.retry - t.retry)
          else t.calls == [-1] && |t.sent| == |s.sent| && t.retry == s.retry)
  {
    UnheardOpcode(s, p, restarts);
    ReadCvBegins();
    hide READ_CV_PROG, PacketOf, Wind, Decode;
    assert READ_CV_PROG[0..] == READ_CV_PROG;
    FitsInt16(-1);
    q := if Step(s, i).code == s.code && Step(s, i).retry == s.retry then p
         else if p == 10 then 0 else if p == 6 then 8 else p + 1;
    assert |READ_CV_PROG[p + 1..]| != |s.code|;
  }

  /** Main result: if nobody answers, DCC::readCV does not try all bits: each attempt sends two packets, which ask
      whether the first bit is 0 and whether it is 1, and what is called back is a failure. */
  lemma {:induction false} SilenceFailsFast(s: State, inputs: seq<Input>) returns (p: nat)
    requires Begins(s, READ_CV_PROG) && forall k | 0 <= k < |inputs| :: inputs[k].poll != Ack
    ensures var t := Run(s, inputs);
      && |t.sent| <= 2 * (Restarts(s, inputs) + 1) && (!t.active ==> t.calls == [-1])
      && (t.active ==> Unheard(t, p, Restarts(s, inputs)))
    decreases |inputs|
  {
    hide Step, Unheard, READ_CV_PROG;
    if inputs == [] {
      p := 0;
      UnheardAtFirst(s);
    } else {
      var n := |inputs| - 1;
      p := SilenceFailsFast(s, inputs[..n]);
      var before := Run(s, inputs[..n]);
      if before.active {
        p := UnheardStep(before, inputs[n], p, Restarts(s, inputs[..n]));
        UnheardCount(Step(before, inputs[n]));
      } else {
        DoneIsDone(before, inputs[n]);
      }
    }
  }

  lemma UnheardAtFirst(s: State)
    requires Begins(s, READ_CV_PROG)
    ensures Unheard(s, 0, 0)
  {
    ReadCvBegins();
    hide READ_CV_PROG;
    assert READ_CV_PROG[0..] == READ_CV_PROG;
  }

  lemma UnheardCount(s: State)
    ensures forall p: nat, restarts: nat | Unheard(s, p, restarts) :: |s.sent| <= 2 * (restarts + 1)
  {
  }
}

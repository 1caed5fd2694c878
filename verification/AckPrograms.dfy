/** The ack programs of DCC.cpp.  A shared tail is an argument, so that a program reads from
    top to bottom and equals the flat byte list of the C++ source. */
module AckPrograms {
  import opened Bytes
  import opened AckVm
  import opened AckLogic

  /** `k` times: verify a bit against 0 and merge the answer. */
  function ReadBits(k: nat, rest: seq<byte>): seq<byte> {
    if k == 0 then rest else [V0, WACK] + ([MERGE] + ReadBits(k - 1, rest))
  }

  /** Reads all bits of the current CV and verifies the merged byte. */
  function ReadByte(rest: seq<byte>): seq<byte> {
    [STARTMERGE] + ReadBits(8, [VB, WACK] + rest)
  }

  /** Reads a CV with a second opinion on its first bit. */
  function ReadByteChecked(rest: seq<byte>): seq<byte> {
    [STARTMERGE] +
    ([V0, WACK] +
    ([MERGE] +
    ([ITSKIP] +
    ([SETBIT, 7] +
    ([V1, WACK] +
    ([NAKFAIL] +
    ([SETBIT, 6] +
    ([SKIPTARGET] +
    ReadBits(7, [VB, WACK] + rest)))))))))
  }

  const WRITE_BIT0_PROG: seq<byte> := [BASELINE, W0, WACK, V0, WACK, ITC1, CALLFAIL]
  const WRITE_BIT1_PROG: seq<byte> := [BASELINE, W1, WACK, V1, WACK, ITC1, CALLFAIL]
  const VERIFY_BIT0_PROG: seq<byte> := [BASELINE, V0, WACK, ITC0, V1, WACK, ITC1, CALLFAIL]
  const VERIFY_BIT1_PROG: seq<byte> := [BASELINE, V1, WACK, ITC1, V0, WACK, ITC0, CALLFAIL]
  const READ_BIT_PROG: seq<byte> := [BASELINE, V1, WACK, ITC1, V0, WACK, ITC0, CALLFAIL]

  const WRITE_BYTE_PROG: seq<byte> := [BASELINE] + WRITE_OR_VERIFY

  const VERIFY_BYTE_PROG: seq<byte> :=
    [BASELINE] + ([BIV] + ([VB, WACK] + ([ITCB] + ReadByteChecked([ITCBV] + [CALLFAIL]))))

  const READ_CV_PROG: seq<byte> := [BASELINE] + ReadByteChecked([ITCB] + [CALLFAIL])

  /** From the check of CV 29 to the end: the loco's own address. */
  const OWN_ADDRESS: seq<byte> :=
    [SETCV, 29] +
    ([SETBIT, 5] +
    ([V0, WACK] +
    ([ITSKIP] +
    LongAddress([SKIPTARGET] + SHORT_ADDRESS))))

  const SHORT_ADDRESS: seq<byte> :=
    [SETCV, 1] +
    ([STARTMERGE] +
    ([SETBIT, 6] +
    ReadBits(7, [VB, WACK] + ([ITCB] + [CALLFAIL]))))

  function LongAddress(rest: seq<byte>): seq<byte> {
    [SETCV, 17] +
    ReadByte([NAKFAIL] +
    ([STASHLOCOID] +
    ([SETCV, 18] +
    ReadByte([NAKFAIL] +
    ([COMBINELOCOID] +
    rest)))))
  }

  /** The check of CV 20 for an extended consist address, up to its SKIPTARGET. */
  function ExtendedConsist(rest: seq<byte>): seq<byte> {
    [SETCV, 20] +
    ([SETBYTE, 0] +
    ([VB, WACK] +
    ([ITSKIP] +
    ReadByte([NAKSKIP] +
    ([BAD20SKIP] +
    ([STASHLOCOID] +
    ([SETCV, 19] +
    ReadByte([NAKFAIL] +
    ([COMBINE1920] +
    ([SKIPTARGET] +
    rest))))))))))
  }

  const LOCO_DRIVEAWAY_PROG: seq<byte> :=
    [BASELINE] +
    ExtendedConsist([SETCV, 19] +
    ([SETBYTE, 0] +
    ([VB, WACK] +
    ([ITSKIP] +
    ([SETBYTE, 128] +
    ([VB, WACK] +
    ([ITSKIP] +
    ReadByte([ITCB7] +
    ([SKIPTARGET] +
    OWN_ADDRESS)))))))))

  const LOCO_READ_ID_PROG: seq<byte> := [BASELINE] + OWN_ADDRESS

  const LOCO_READ_CONSIST_PROG: seq<byte> :=
    [BASELINE] +
    ExtendedConsist([SETCV, 19] +
    ([SETBYTE, 0] +
    ([VB, WACK] +
    ([ITC0] +
    ([SETBYTE, 128] +
    ([VB, WACK] +
    ([ITC0] +
    ReadByte([ITCB7] +
    [CALLFAIL]))))))))

  /** Writes 0 to CVs 20 and 19, whether or not the decoder has them. */
  function ClearConsist(rest: seq<byte>): seq<byte> {
    [SETCV, 20] + ([SETBYTE, 0] + ([WB, WACK] +
    ([SETCV, 19] + ([SETBYTE, 0] + ([WB, WACK] +
    rest)))))
  }

  /** Write, and if that is not acked verify; call back 1 on either ack. */
  const WRITE_OR_VERIFY: seq<byte> :=
    [WB, WACK] + ([ITC1] + ([VB, WACK] + ([ITC1] + [CALLFAIL])))

  const SHORT_LOCO_ID_PROG: seq<byte> :=
    [BASELINE] +
    ClearConsist([SETCV, 29] +
    ([SETBIT, 5] +
    ([W0, WACK] +
    ([V0, WACK] +
    ([NAKFAIL] +
    ([SETCV, 1] +
    ([SETBYTEL] +
    WRITE_OR_VERIFY)))))))

  const CONSIST_ID_PROG: seq<byte> :=
    [BASELINE] +
    ([SETCV, 20] +
    ([SETBYTEH] +
    ([WB, WACK] +
    ([ITSKIP] +
    ([FAIL_IF_NONZERO_NAK] +
    ([SKIPTARGET] +
    ([SETCV, 19] +
    ([SETBYTEL] +
    WRITE_OR_VERIFY))))))))

  const LONG_LOCO_ID_PROG: seq<byte> :=
    [BASELINE] +
    ClearConsist([SETCV, 29] +
    ([SETBIT, 5] +
    ([W1, WACK] +
    ([V1, WACK] +
    ([NAKFAIL] +
    ([SETCV, 17] +
    ([SETBYTEH] +
    ([WB, WACK] +
    ([ITSKIP] +
    ([VB, WACK] +
    ([ITSKIP] +
    ([CALLFAIL] +
    ([SKIPTARGET] +
    ([SETCV, 18] +
    ([SETBYTEL] +
    WRITE_OR_VERIFY)))))))))))))))

  /** The programs that DCC.cpp hands to the interpreter. */
  predicate Shipped(p: seq<byte>) {
    || p == WRITE_BIT0_PROG || p == WRITE_BIT1_PROG || p == VERIFY_BIT0_PROG || p == VERIFY_BIT1_PROG
    || p == READ_BIT_PROG || p == WRITE_BYTE_PROG || p == VERIFY_BYTE_PROG || p == READ_CV_PROG
    || p == LOCO_DRIVEAWAY_PROG || p == LOCO_READ_ID_PROG || p == LOCO_READ_CONSIST_PROG
    || p == SHORT_LOCO_ID_PROG || p == CONSIST_ID_PROG || p == LONG_LOCO_ID_PROG
  }

  // ---------- They are well formed ----------

  lemma WfOp(op: byte, rest: seq<byte>)
    requires op !in {SETBIT, SETCV, SETBYTE}
    requires op in {ITSKIP, NAKSKIP, BAD20SKIP} ==> SKIPTARGET in rest
    ensures WellFormed(rest) ==> WellFormed([op] + rest)
    ensures SKIPTARGET in rest || op == SKIPTARGET ==> SKIPTARGET in [op] + rest
  {
    var code := [op] + rest;
    assert code[1..] == rest;
    if SKIPTARGET in rest {
      assert SKIPTARGET in code[1..];
    } else if op == SKIPTARGET {
      assert code[0] == SKIPTARGET;
    }
  }

  lemma WfSet(op: byte, n: byte, rest: seq<byte>)
    requires op in {SETBIT, SETCV, SETBYTE} && n != SKIPTARGET
    ensures WellFormed(rest) ==> WellFormed([op, n] + rest)
    ensures SKIPTARGET in rest ==> SKIPTARGET in [op, n] + rest
  {
    var code := [op, n] + rest;
    assert code[2..] == rest;
  }

  lemma WfSend(op: byte, rest: seq<byte>)
    requires W0 <= op <= V1
    ensures WellFormed(rest) ==> WellFormed([op, WACK] + rest)
    ensures SKIPTARGET in rest ==> SKIPTARGET in [op, WACK] + rest
  {
    WfOp(WACK, rest);
    WfOp(op, [WACK] + rest);
    assert [op] + ([WACK] + rest) == [op, WACK] + rest;
  }

  lemma WfBits(k: nat, rest: seq<byte>)
    ensures WellFormed(rest) ==> WellFormed(ReadBits(k, rest))
    ensures SKIPTARGET in rest ==> SKIPTARGET in ReadBits(k, rest)
  {
    if k > 0 {
      var more := ReadBits(k - 1, rest);
      WfBits(k - 1, rest);
      WfOp(MERGE, more);
      WfSend(V0, [MERGE] + more);
    }
  }

  lemma WfRead(rest: seq<byte>)
    ensures WellFormed(rest) ==> WellFormed(ReadByte(rest))
    ensures SKIPTARGET in rest ==> SKIPTARGET in ReadByte(rest)
  {
    WfSend(VB, rest);
    WfBits(8, [VB, WACK] + rest);
    WfOp(STARTMERGE, ReadBits(8, [VB, WACK] + rest));
  }

  lemma WfReadChecked(rest: seq<byte>)
    ensures WellFormed(rest) ==> WellFormed(ReadByteChecked(rest))
  {
    WfSend(VB, rest);
    var c10 := [VB, WACK] + rest;
    WfBits(7, c10);
    var c9 := ReadBits(7, c10);
    WfOp(SKIPTARGET, c9);
    var c8 := [SKIPTARGET] + c9;
    WfSet(SETBIT, 6, c8);
    var c7 := [SETBIT, 6] + c8;
    WfOp(NAKFAIL, c7);
    var c6 := [NAKFAIL] + c7;
    WfSend(V1, c6);
    var c5 := [V1, WACK] + c6;
    WfSet(SETBIT, 7, c5);
    var c4 := [SETBIT, 7] + c5;
    WfOp(ITSKIP, c4);
    var c3 := [ITSKIP] + c4;
    WfOp(MERGE, c3);
    var c2 := [MERGE] + c3;
    WfSend(V0, c2);
    var c1 := [V0, WACK] + c2;
    WfOp(STARTMERGE, c1);
  }

  lemma WfLong(rest: seq<byte>)
    ensures WellFormed(rest) ==> WellFormed(LongAddress(rest))
    ensures SKIPTARGET in rest ==> SKIPTARGET in LongAddress(rest)
  {
    WfOp(COMBINELOCOID, rest);
    var c7 := [COMBINELOCOID] + rest;
    WfOp(NAKFAIL, c7);
    var c6 := [NAKFAIL] + c7;
    WfRead(c6);
    var c5 := ReadByte(c6);
    WfSet(SETCV, 18, c5);
    var c4 := [SETCV, 18] + c5;
    WfOp(STASHLOCOID, c4);
    var c3 := [STASHLOCOID] + c4;
    WfOp(NAKFAIL, c3);
    var c2 := [NAKFAIL] + c3;
    WfRead(c2);
    var c1 := ReadByte(c2);
    WfSet(SETCV, 17, c1);
  }

  lemma WfExtended(rest: seq<byte>)
    ensures WellFormed(rest) ==> WellFormed(ExtendedConsist(rest))
    ensures SKIPTARGET in ExtendedConsist(rest)
  {
    WfOp(SKIPTARGET, rest);
    var c12 := [SKIPTARGET] + rest;
    WfOp(COMBINE1920, c12);
    var c11 := [COMBINE1920] + c12;
    WfOp(NAKFAIL, c11);
    var c10 := [NAKFAIL] + c11;
    WfRead(c10);
    var c9 := ReadByte(c10);
    WfSet(SETCV, 19, c9);
    var c8 := [SETCV, 19] + c9;
    WfOp(STASHLOCOID, c8);
    var c7 := [STASHLOCOID] + c8;
    WfOp(BAD20SKIP, c7);
    var c6 := [BAD20SKIP] + c7;
    WfOp(NAKSKIP, c6);
    var c5 := [NAKSKIP] + c6;
    WfRead(c5);
    var c4 := ReadByte(c5);
    WfOp(ITSKIP, c4);
    var c3 := [ITSKIP] + c4;
    WfSend(VB, c3);
    var c2 := [VB, WACK] + c3;
    WfSet(SETBYTE, 0, c2);
    var c1 := [SETBYTE, 0] + c2;
    WfSet(SETCV, 20, c1);
  }

  lemma WfClear(rest: seq<byte>)
    ensures WellFormed(rest) ==> WellFormed(ClearConsist(rest))
    ensures SKIPTARGET in rest ==> SKIPTARGET in ClearConsist(rest)
  {
    WfSend(WB, rest);
    var c5 := [WB, WACK] + rest;
    WfSet(SETBYTE, 0, c5);
    var c4 := [SETBYTE, 0] + c5;
    WfSet(SETCV, 19, c4);
    var c3 := [SETCV, 19] + c4;
    WfSend(WB, c3);
    var c2 := [WB, WACK] + c3;
    WfSet(SETBYTE, 0, c2);
    var c1 := [SETBYTE, 0] + c2;
    WfSet(SETCV, 20, c1);
  }

  lemma WfOwnAddress()
    ensures WellFormed(OWN_ADDRESS)
  {
    WfOp(ITCB, [CALLFAIL]);
    var c11 := [ITCB] + [CALLFAIL];
    WfSend(VB, c11);
    var c10 := [VB, WACK] + c11;
    WfBits(7, c10);
    var c9 := ReadBits(7, c10);
    WfSet(SETBIT, 6, c9);
    var c8 := [SETBIT, 6] + c9;
    WfOp(STARTMERGE, c8);
    var c7 := [STARTMERGE] + c8;
    WfSet(SETCV, 1, c7);
    var c6 := [SETCV, 1] + c7;
    WfOp(SKIPTARGET, c6);
    var c5 := [SKIPTARGET] + c6;
    WfLong(c5);
    var c4 := LongAddress(c5);
    WfOp(ITSKIP, c4);
    var c3 := [ITSKIP] + c4;
    WfSend(V0, c3);
    var c2 := [V0, WACK] + c3;
    WfSet(SETBIT, 5, c2);
    var c1 := [SETBIT, 5] + c2;
    WfSet(SETCV, 29, c1);
  }

  lemma WfDriveaway()
    ensures WellFormed(LOCO_DRIVEAWAY_PROG)
  {
    WfOwnAddress();
    WfOp(SKIPTARGET, OWN_ADDRESS);
    var c11 := [SKIPTARGET] + OWN_ADDRESS;
    WfOp(ITCB7, c11);
    var c10 := [ITCB7] + c11;
    WfRead(c10);
    var c9 := ReadByte(c10);
    WfOp(ITSKIP, c9);
    var c8 := [ITSKIP] + c9;
    WfSend(VB, c8);
    var c7 := [VB, WACK] + c8;
    WfSet(SETBYTE, 128, c7);
    var c6 := [SETBYTE, 128] + c7;
    WfOp(ITSKIP, c6);
    var c5 := [ITSKIP] + c6;
    WfSend(VB, c5);
    var c4 := [VB, WACK] + c5;
    WfSet(SETBYTE, 0, c4);
    var c3 := [SETBYTE, 0] + c4;
    WfSet(SETCV, 19, c3);
    var c2 := [SETCV, 19] + c3;
    WfExtended(c2);
    var c1 := ExtendedConsist(c2);
    WfOp(BASELINE, c1);
  }

  lemma WfReadConsist()
    ensures WellFormed(LOCO_READ_CONSIST_PROG)
  {
    WfOp(ITCB7, [CALLFAIL]);
    var c10 := [ITCB7] + [CALLFAIL];
    WfRead(c10);
    var c9 := ReadByte(c10);
    WfOp(ITC0, c9);
    var c8 := [ITC0] + c9;
    WfSend(VB, c8);
    var c7 := [VB, WACK] + c8;
    WfSet(SETBYTE, 128, c7);
    var c6 := [SETBYTE, 128] + c7;
    WfOp(ITC0, c6);
    var c5 := [ITC0] + c6;
    WfSend(VB, c5);
    var c4 := [VB, WACK] + c5;
    WfSet(SETBYTE, 0, c4);
    var c3 := [SETBYTE, 0] + c4;
    WfSet(SETCV, 19, c3);
    var c2 := [SETCV, 19] + c3;
    WfExtended(c2);
    var c1 := ExtendedConsist(c2);
    WfOp(BASELINE, c1);
  }

  lemma WfWriteOrVerify()
    ensures WellFormed(WRITE_OR_VERIFY)
  {
    WfOp(ITC1, [CALLFAIL]);
    var c3 := [ITC1] + [CALLFAIL];
    WfSend(VB, c3);
    var c2 := [VB, WACK] + c3;
    WfOp(ITC1, c2);
    var c1 := [ITC1] + c2;
    WfSend(WB, c1);
  }

  lemma WfShortLocoId()
    ensures WellFormed(SHORT_LOCO_ID_PROG)
  {
    WfWriteOrVerify();
    WfOp(SETBYTEL, WRITE_OR_VERIFY);
    var c8 := [SETBYTEL] + WRITE_OR_VERIFY;
    WfSet(SETCV, 1, c8);
    var c7 := [SETCV, 1] + c8;
    WfOp(NAKFAIL, c7);
    var c6 := [NAKFAIL] + c7;
    WfSend(V0, c6);
    var c5 := [V0, WACK] + c6;
    WfSend(W0, c5);
    var c4 := [W0, WACK] + c5;
    WfSet(SETBIT, 5, c4);
    var c3 := [SETBIT, 5] + c4;
    WfSet(SETCV, 29, c3);
    var c2 := [SETCV, 29] + c3;
    WfClear(c2);
    var c1 := ClearConsist(c2);
    WfOp(BASELINE, c1);
  }

  lemma WfConsistId()
    ensures WellFormed(CONSIST_ID_PROG)
  {
    WfWriteOrVerify();
    WfOp(SETBYTEL, WRITE_OR_VERIFY);
    var c8 := [SETBYTEL] + WRITE_OR_VERIFY;
    WfSet(SETCV, 19, c8);
    var c7 := [SETCV, 19] + c8;
    WfOp(SKIPTARGET, c7);
    var c6 := [SKIPTARGET] + c7;
    WfOp(FAIL_IF_NONZERO_NAK, c6);
    var c5 := [FAIL_IF_NONZERO_NAK] + c6;
    WfOp(ITSKIP, c5);
    var c4 := [ITSKIP] + c5;
    WfSend(WB, c4);
    var c3 := [WB, WACK] + c4;
    WfOp(SETBYTEH, c3);
    var c2 := [SETBYTEH] + c3;
    WfSet(SETCV, 20, c2);
    var c1 := [SETCV, 20] + c2;
    WfOp(BASELINE, c1);
  }

  lemma WfLongLocoId()
    ensures WellFormed(LONG_LOCO_ID_PROG)
  {
    WfWriteOrVerify();
    WfOp(SETBYTEL, WRITE_OR_VERIFY);
    var c16 := [SETBYTEL] + WRITE_OR_VERIFY;
    WfSet(SETCV, 18, c16);
    var c15 := [SETCV, 18] + c16;
    WfOp(SKIPTARGET, c15);
    var c14 := [SKIPTARGET] + c15;
    WfOp(CALLFAIL, c14);
    var c13 := [CALLFAIL] + c14;
    WfOp(ITSKIP, c13);
    var c12 := [ITSKIP] + c13;
    WfSend(VB, c12);
    var c11 := [VB, WACK] + c12;
    WfOp(ITSKIP, c11);
    var c10 := [ITSKIP] + c11;
    WfSend(WB, c10);
    var c9 := [WB, WACK] + c10;
    WfOp(SETBYTEH, c9);
    var c8 := [SETBYTEH] + c9;
    WfSet(SETCV, 17, c8);
    var c7 := [SETCV, 17] + c8;
    WfOp(NAKFAIL, c7);
    var c6 := [NAKFAIL] + c7;
    WfSend(V1, c6);
    var c5 := [V1, WACK] + c6;
    WfSend(W1, c5);
    var c4 := [W1, WACK] + c5;
    WfSet(SETBIT, 5, c4);
    var c3 := [SETBIT, 5] + c4;
    WfSet(SETCV, 29, c3);
    var c2 := [SETCV, 29] + c3;
    WfClear(c2);
    var c1 := ClearConsist(c2);
    WfOp(BASELINE, c1);
  }

  lemma WfVerifyByte()
    ensures WellFormed(VERIFY_BYTE_PROG)
  {
    WfOp(ITCBV, [CALLFAIL]);
    var c5 := [ITCBV] + [CALLFAIL];
    WfReadChecked(c5);
    var c4 := ReadByteChecked(c5);
    WfOp(ITCB, c4);
    var c3 := [ITCB] + c4;
    WfSend(VB, c3);
    var c2 := [VB, WACK] + c3;
    WfOp(BIV, c2);
    var c1 := [BIV] + c2;
    WfOp(BASELINE, c1);
  }

  lemma WfReadCv()
    ensures WellFormed(READ_CV_PROG)
  {
    WfOp(ITCB, [CALLFAIL]);
    var c2 := [ITCB] + [CALLFAIL];
    WfReadChecked(c2);
    var c1 := ReadByteChecked(c2);
    WfOp(BASELINE, c1);
  }

  lemma WfTwoTries(first: byte, firstCall: byte, second: byte, secondCall: byte, prog: seq<byte>)
    requires W0 <= first <= V1 && W0 <= second <= V1 && firstCall in {ITC0, ITC1} && secondCall in {ITC0, ITC1}
    requires prog == [BASELINE, first, WACK, firstCall, second, WACK, secondCall, CALLFAIL]
    ensures WellFormed(prog)
  {
    WfOp(secondCall, [CALLFAIL]);
    WfSend(second, [secondCall] + [CALLFAIL]);
    var c := [second, WACK] + ([secondCall] + [CALLFAIL]);
    WfOp(firstCall, c);
    WfSend(first, [firstCall] + c);
    WfOp(BASELINE, [first, WACK] + ([firstCall] + c));
    assert prog == [BASELINE] + ([first, WACK] + ([firstCall] + c));
  }

  lemma WfWriteThenVerify(write: byte, verify: byte, prog: seq<byte>)
    requires W0 <= write <= V1 && W0 <= verify <= V1
    requires prog == [BASELINE, write, WACK, verify, WACK, ITC1, CALLFAIL]
    ensures WellFormed(prog)
  {
    WfOp(ITC1, [CALLFAIL]);
    WfSend(verify, [ITC1] + [CALLFAIL]);
    var c := [verify, WACK] + ([ITC1] + [CALLFAIL]);
    WfSend(write, c);
    WfOp(BASELINE, [write, WACK] + c);
    assert prog == [BASELINE] + ([write, WACK] + c);
  }

  /** Every program that DCC.cpp ships is well formed, so `RunsEnd` applies to it. */
  lemma ShippedProgramsAreWellFormed(p: seq<byte>)
    requires Shipped(p)
    ensures WellFormed(p)
  {
    WfWriteThenVerify(W0, V0, WRITE_BIT0_PROG);
    WfWriteThenVerify(W1, V1, WRITE_BIT1_PROG);
    WfTwoTries(V0, ITC0, V1, ITC1, VERIFY_BIT0_PROG);
    WfTwoTries(V1, ITC1, V0, ITC0, VERIFY_BIT1_PROG);
    WfTwoTries(V1, ITC1, V0, ITC0, READ_BIT_PROG);
    WfWriteOrVerify();
    WfOp(BASELINE, WRITE_OR_VERIFY);
    WfVerifyByte();
    WfReadCv();
    WfOwnAddress();
    WfOp(BASELINE, OWN_ADDRESS);
    WfDriveaway();
    WfReadConsist();
    WfShortLocoId();
    WfConsistId();
    WfLongLocoId();
  }
}

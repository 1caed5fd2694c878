/** Loco functions F0 to F28 in DCC.cpp: the function map and group flags of a slot, the reminders
    made from them, and the parser of DCCEXParser.cpp that reads such bytes back.  The bytes are those
    of sections 2.3.4 to 2.3.6 of NMRA S-9.2.1. */
module LocoFunctions {
  import opened Bytes
  import opened Decoder
  import opened DccPackets

  /** `functions` and `groupFlags` of a LocoSlot; bit g-1 of the flags is FN_GROUP_g. */
  datatype Functions = Functions(map32: nat, flags: nat)

  const NONE: Functions := Functions(0, 0)

  function Group(n: nat): (g: nat)
    ensures 1 <= g <= 5
  {
    if n <= 4 then 1 else if n <= 8 then 2 else if n <= 12 then 3 else if n <= 20 then 4 else 5
  }

  /** DCC::setFn for the functions that the slot remembers; those above F28 go out as packets only. */
  function SetFn(f: Functions, n: int, on: bool): Functions {
    if n < 0 || n > 28 then f
    else
      var newset := SetBit(f.map32, n, on);
      if newset == f.map32 then f else Functions(newset, SetBit(f.flags, Group(n) - 1, true))
  }

  /** DCC::setDCFreq: the frequency of DC tracks is in the bits F29 to F31. */
  function SetFreq(f: Functions, freq: byte): Functions {
    if freq > 3 then f
    else
      var none := SetBit(SetBit(SetBit(f.map32, 29, false), 30, false), 31, false);
      f.(map32 := if freq == 0 then none else SetBit(none, 28 + freq, true))
  }

  /** DCCEXParser::funcmap for `count` functions from `start`. */
  function FuncMap(f: Functions, value: nat, start: nat, count: nat): Functions
    decreases count
  {
    if count == 0 then f else FuncMap(SetFn(f, start, value % 2 == 1), value / 2, start + 1, count - 1)
  }

  /** DCCEXParser::parsef on the bytes after the loco id. */
  function ParseF(f: Functions, p: seq<byte>): Functions {
    if |p| == 1 then
      if p[0] / 32 == 4 then FuncMap(f, p[0] % 16 * 2 + p[0] / 16 % 2, 0, 5)
      else if p[0] / 32 == 5 then
        if p[0] / 16 % 2 == 1 then FuncMap(f, p[0], 5, 4) else FuncMap(f, p[0], 9, 4)
      else f
    else if |p| == 2 then
      if p[0] == 222 then FuncMap(f, p[1], 13, 8)
      else if p[0] == 223 then FuncMap(f, p[1], 21, 8)
      else f
    else f
  }

  /** The instruction bytes of the reminder for a group in DCC::issueReminder. */
  function Reminder(f: Functions, group: nat): seq<byte>
    requires 1 <= group <= 5
  {
    match group
    case 1 => [128 + Shr(f.map32, 1) % 16 + f.map32 % 2 * 16]
    case 2 => [176 + Shr(f.map32, 5) % 16]
    case 3 => [160 + Shr(f.map32, 9) % 16]
    case 4 => [222, Shr(f.map32, 13) % 256]
    case _ => [223, Shr(f.map32, 21) % 256]
  }

  predicate Touched(f: Functions, group: nat)
    requires 1 <= group <= 5
  {
    Bit(f.flags, group - 1)
  }

  /** The two fields of a LocoSlot, updated in place. */
  class FunctionSlot {
    var functions: nat
    var groupFlags: nat

    function Abs(): Functions
      reads this
    {
      Functions(functions, groupFlags)
    }

    /** DCC::updateGroupflags */
    method UpdateGroupFlags(functionNumber: nat)
      modifies this`groupFlags
      ensures groupFlags == SetBit(old(groupFlags), Group(functionNumber) - 1, true)
    {
      var bit := 4;
      if functionNumber <= 4 {
        bit := 0;
      } else if functionNumber <= 8 {
        bit := 1;
      } else if functionNumber <= 12 {
        bit := 2;
      } else if functionNumber <= 20 {
        bit := 3;
      }
      groupFlags := SetBit(groupFlags, bit, true);
    }

    /** DCC::setFn */
    method Set(functionNumber: int, on: bool)
      modifies this
      ensures Abs() == SetFn(old(Abs()), functionNumber, on)
    {
      if functionNumber < 0 || functionNumber > 28 { return; }
      var previous := functions;
      var newset := SetBit(previous, functionNumber, on);
      if newset != previous {
        functions := newset;
        UpdateGroupFlags(functionNumber);
      }
    }

    /** DCCEXParser::funcmap */
    method Map(value: byte, fstart: nat, fstop: nat)
      requires fstart <= fstop
      modifies this
      ensures Abs() == FuncMap(old(Abs()), value, fstart, fstop + 1 - fstart)
    {
      hide SetFn;
      var i, v: nat := fstart, value;
      while i <= fstop
        invariant fstart <= i <= fstop + 1
        invariant FuncMap(Abs(), v, i, fstop + 1 - i) == FuncMap(old(Abs()), value, fstart, fstop + 1 - fstart)
      {
        Set(i, v % 2 == 1);
        v := v / 2;
        i := i + 1;
      }
    }
  }

  // ---------- Flags ----------

  /** A function that is on belongs to a touched group, so it is reminded. */
  ghost predicate Covered(f: Functions) {
    forall n | 0 <= n <= 28 :: Bit(f.map32, n) ==> Touched(f, Group(n))
  }

  lemma SetFnKeepsCovered(f: Functions, n: int, on: bool)
    requires Covered(f)
    ensures Covered(SetFn(f, n, on))
  {
    hide Bit;
    forall k | 0 <= k <= 28 && Bit(SetFn(f, n, on).map32, k)
      ensures Touched(SetFn(f, n, on), Group(k))
    {
      if 0 <= n <= 28 {
        SetBitChangesOneBit(f.map32, n, on, k);
        SetBitChangesOneBit(f.flags, Group(n) - 1, true, Group(k) - 1);
        SameBits(f.map32, n, on);
      }
    }
  }

  /** Setting a bit to what it is changes nothing. */
  lemma {:induction false} SameBits(v: nat, n: nat, on: bool)
    ensures SetBit(v, n, on) == v <==> Bit(v, n) == on
    decreases n
  {
    if n > 0 {
      SameBits(v / 2, n - 1, on);
    }
  }

  datatype Command = Function(number: int, on: bool) | Frequency(freq: byte)

  function SetOne(f: Functions, c: Command): Functions {
    if c.Function? then SetFn(f, c.number, c.on) else SetFreq(f, c.freq)
  }

  function SetAll(f: Functions, commands: seq<Command>): Functions {
    if commands == [] then f else SetOne(SetAll(f, commands[..|commands| - 1]), commands[|commands| - 1])
  }

  lemma FreqBits(f: Functions, freq: byte, n: nat)
    ensures Bit(SetFreq(f, freq).map32, n) == if 29 <= n <= 31 && freq <= 3 then n == 28 + freq else Bit(f.map32, n)
  {
    hide Bit, SetBit;
    var m := f.map32;
    var a := SetBit(m, 29, false);
    var b := SetBit(a, 30, false);
    var c := SetBit(b, 31, false);
    SetBitChangesOneBit(m, 29, false, n);
    SetBitChangesOneBit(a, 30, false, n);
    SetBitChangesOneBit(b, 31, false, n);
    SetBitChangesOneBit(c, 28 + freq, true, n);
  }

  lemma {:induction false} RunsStayCovered(commands: seq<Command>)
    ensures Covered(SetAll(NONE, commands))
    decreases |commands|
  {
    if commands == [] {
      forall n: nat
        ensures !Bit(0, n)
      {
        NoBits(n);
      }
    } else {
      var before, c := SetAll(NONE, commands[..|commands| - 1]), commands[|commands| - 1];
      RunsStayCovered(commands[..|commands| - 1]);
      match c
      case Function(number, on) => SetFnKeepsCovered(before, number, on);
      case Frequency(freq) =>
        hide SetFreq, Bit;
        forall n | 0 <= n <= 28 ensures Bit(SetFreq(before, freq).map32, n) == Bit(before.map32, n) {
          FreqBits(before, freq, n);
        }
        assert SetOne(before, c).flags == before.flags by { FreqKeepsFlags(before, freq); }
    }
  }

  lemma FreqKeepsFlags(f: Functions, freq: byte)
    ensures SetFreq(f, freq).flags == f.flags
  {
  }

  predicate Uses(c: Command, group: nat) {
    c.Function? && c.on && 0 <= c.number <= 28 && Group(c.number) == group
  }

  lemma SetOneTouches(f: Functions, c: Command, group: nat)
    requires Covered(f) && 1 <= group <= 5
    ensures Touched(SetOne(f, c), group) <==> Touched(f, group) || Uses(c, group)
  {
    hide Bit, SetFreq;
    match c
    case Frequency(freq) => FreqKeepsFlags(f, freq);
    case Function(n, on) =>
      if 0 <= n <= 28 {
        SameBits(f.map32, n, on);
        SetBitChangesOneBit(f.flags, Group(n) - 1, true, group - 1);
      }
  }

  /** After any commands, a group is one to be reminded of exactly if a function of it has ever been switched on. */
  lemma {:induction false} UsedIsReminded(commands: seq<Command>, group: nat)
    requires 1 <= group <= 5
    ensures Touched(SetAll(NONE, commands), group) <==>
      exists i :: 0 <= i < |commands| && Uses(commands[i], group)
    decreases |commands|
  {
    hide Covered, Touched, Uses;
    if commands == [] {
      NothingIsTouched(group);
    } else {
      var n := |commands| - 1;
      UsedIsReminded(commands[..n], group);
      RunsStayCovered(commands[..n]);
      SetOneTouches(SetAll(NONE, commands[..n]), commands[n], group);
      assert forall i | 0 <= i < n :: commands[i] == commands[..n][i];
    }
  }

  lemma NothingIsTouched(group: nat)
    requires 1 <= group <= 5
    ensures !Touched(SetAll(NONE, []), group)
  {
    NoBits(group - 1);
  }

  /** The last frequency that was set, or 0. */
  function LastFreq(commands: seq<Command>): byte {
    if commands == [] then 0
    else
      var c := commands[|commands| - 1];
      if c.Frequency? && c.freq <= 3 then c.freq else LastFreq(commands[..|commands| - 1])
  }

  /** After any commands, the bits F29 to F31 are those of the last frequency: no function command changes them. */
  lemma {:induction false} FrequencyStays(commands: seq<Command>, n: nat)
    requires 29 <= n <= 31
    ensures Bit(SetAll(NONE, commands).map32, n) == (n == 28 + LastFreq(commands))
    decreases |commands|
  {
    hide Bit, SetBit;
    if commands == [] {
      NoBit(n);
    } else {
      var before, c := commands[..|commands| - 1], commands[|commands| - 1];
      FrequencyStays(before, n);
      if c.Frequency? {
        FreqBits(SetAll(NONE, before), c.freq, n);
      } else if 0 <= c.number <= 28 {
        SetBitChangesOneBit(SetAll(NONE, before).map32, c.number, c.on, n);
      }
    }
  }

  lemma NoBit(n: nat)
    ensures !Bit(0, n)
  {
    NoBits(n);
  }

  lemma {:induction false} NoBits(n: nat)
    ensures Shr(0, n) == 0
  {
    if n > 0 {
      NoBits(n - 1);
    }
  }

  // ---------- Reading back ----------

  /** funcmap copies bits and leaves the others alone. */
  lemma {:induction false} FuncMapCopies(f: Functions, value: nat, start: nat, count: nat, k: nat)
    requires start + count <= 29
    ensures Bit(FuncMap(f, value, start, count).map32, k) ==
            if start <= k < start + count then Bit(value, k - start) else Bit(f.map32, k)
    decreases count
  {
    if count > 0 {
      var on := value % 2 == 1;
      SetBitChangesOneBit(f.map32, start, on, k);
      SameBits(f.map32, start, on);
      FuncMapCopies(SetFn(f, start, on), value / 2, start + 1, count - 1, k);
    }
  }

  lemma {:induction false} ShrShr(v: nat, a: nat, b: nat)
    ensures Shr(Shr(v, a), b) == Shr(v, a + b)
    decreases a
  {
    if a > 0 {
      ShrShr(v / 2, a - 1, b);
    }
  }

  /** Cutting a number to its low bits keeps those. */
  lemma {:induction false} LowBits(v: nat, m: nat, k: nat)
    requires k < m
    ensures Bit(v % Pow2(m), k) == Bit(v, k)
    decreases m
  {
    HalfOfLow(v, Pow2(m - 1));
    if k > 0 {
      LowBits(v / 2, m - 1, k - 1);
    }
  }

  /** Bits of the byte that parsef reorders for group 1. */
  lemma GroupOneBits(v: nat, k: nat)
    requires k < 5
    ensures Bit(Shr(v, 1) % 16 * 2 + v % 2, k) == Bit(v, k)
  {
    var w := Shr(v, 1) % 16 * 2 + v % 2;
    assert w % 2 == v % 2 && w / 2 == Shr(v, 1) % 16;
    if k > 0 {
      assert Shr(v, 1) == v / 2;
      assert Pow2(4) == 16;
      LowBits(v / 2, 4, k - 1);
    }
  }

  /** A byte whose low `m` bits are those of `v` from bit `at` on. */
  lemma FieldBits(w: nat, v: nat, at: nat, m: nat, k: nat)
    requires k < m && w % Pow2(m) == Shr(v, at) % Pow2(m)
    ensures Bit(w, k) == Bit(v, at + k)
  {
    LowBits(w, m, k);
    LowBits(Shr(v, at), m, k);
    ShrShr(v, at, k);
  }

  lemma FieldCopies(t: Functions, w: nat, v: nat, start: nat, count: nat, n: nat)
    requires start + count <= 29 && w % Pow2(count) == Shr(v, start) % Pow2(count)
    ensures Bit(FuncMap(t, w, start, count).map32, n) ==
            if start <= n < start + count then Bit(v, n) else Bit(t.map32, n)
  {
    FuncMapCopies(t, w, start, count, n);
    if start <= n < start + count {
      FieldBits(w, v, start, count, n - start);
    }
  }

  /** What the reminders look like. */
  lemma ReminderFields(v: nat)
    ensures Pow2(4) == 16 && Pow2(8) == 256
    ensures var p := 128 + v % 16 + v / 16 % 2 * 16;
      p < 256 && p / 32 == 4 && p % 16 == v % 16 && p / 16 % 2 == v / 16 % 2
    ensures var p := 176 + v % 16; p < 256 && p / 32 == 5 && p / 16 % 2 == 1 && p % 16 == v % 16
    ensures var p := 160 + v % 16; p < 256 && p / 32 == 5 && p / 16 % 2 == 0 && p % 16 == v % 16
    ensures v % 256 % 256 == v % 256
  {
    assert Pow2(2) == 4;
    assert Pow2(4) == 16;
    assert Pow2(6) == 64;
  }

  lemma GroupOneCopies(f: Functions, t: Functions, n: nat)
    requires n <= 28
    ensures Bit(ParseF(t, Reminder(f, 1)).map32, n) == if n < 5 then Bit(f.map32, n) else Bit(t.map32, n)
  {
    hide Bit, FuncMap, Shr;
    var v := f.map32;
    ReminderFields(Shr(v, 1) % 16 + 16 * (v % 2));
    Packed(Shr(v, 1) % 16, v % 2);
    FuncMapCopies(t, Shr(v, 1) % 16 * 2 + v % 2, 0, 5, n);
    if n < 5 {
      GroupOneBits(v, n);
    }
  }

  lemma Packed(x: nat, b: nat)
    requires x < 16 && b < 2
    ensures (x + 16 * b) % 16 == x && (x + 16 * b) / 16 % 2 == b
  {
  }

  /** Parsing the reminder of a group sets its functions as they were, and no others. */
  lemma ReminderCopies(f: Functions, t: Functions, group: nat, n: nat)
    requires 1 <= group <= 5 && n <= 28
    ensures var from := if Group(n) == group then f else t;
      Bit(ParseF(t, Reminder(f, group)).map32, n) == Bit(from.map32, n)
  {
    hide Bit, FuncMap, Shr, Pow2;
    var v := f.map32;
    match group
    case 1 =>
      GroupOneCopies(f, t, n);
    case 2 =>
      ReminderFields(Shr(v, 5));
      FieldCopies(t, 176 + Shr(v, 5) % 16, v, 5, 4, n);
    case 3 =>
      ReminderFields(Shr(v, 9));
      FieldCopies(t, 160 + Shr(v, 9) % 16, v, 9, 4, n);
    case 4 =>
      ReminderFields(Shr(v, 13));
      FieldCopies(t, Shr(v, 13) % 256, v, 13, 8, n);
    case _ =>
      ReminderFields(Shr(v, 21));
      FieldCopies(t, Shr(v, 21) % 256, v, 21, 8, n);
  }

  /** What another station knows after it has read the reminders of the touched groups up to `group`. */
  function Reread(f: Functions, group: nat): Functions
    requires group <= 5
  {
    if group == 0 then NONE
    else
      var before := Reread(f, group - 1);
      if Touched(f, group) then ParseF(before, Reminder(f, group)) else before
  }

  lemma {:induction false} RereadSoFar(f: Functions, group: nat, n: nat)
    requires group <= 5 && Covered(f) && n <= 28
    ensures Bit(Reread(f, group).map32, n) == (Group(n) <= group && Bit(f.map32, n))
    decreases group
  {
    if group == 0 {
      NoBits(n);
    } else {
      RereadSoFar(f, group - 1, n);
      ReminderCopies(f, Reread(f, group - 1), group, n);
    }
  }

  /** Main result: from the reminders of any slot that commands have made, all of F0 to F28 come back. */
  lemma FunctionRoundTrip(commands: seq<Command>, n: nat)
    requires n <= 28
    ensures var f := SetAll(NONE, commands); Bit(Reread(f, 5).map32, n) == Bit(f.map32, n)
  {
    RunsStayCovered(commands);
    RereadSoFar(SetAll(NONE, commands), 5, n);
  }

  // ---------- The packets ----------

  /** setFunctionInternal */
  function FunctionPacket(cab: uint16, f: Functions, group: nat): seq<byte>
    requires 1 <= group <= 5
  {
    Address(cab) + Reminder(f, group)
  }

  /** Function packets fit the waveform generator and move nothing. */
  lemma FunctionsDoNotMove(cab: uint16, f: Functions, group: nat)
    requires 1 <= group <= 5
    ensures |FunctionPacket(cab, f, group)| <= 4 && MotionOf(FunctionPacket(cab, f, group)) == NotSpeed
  {
    var p := FunctionPacket(cab, f, group);
    assert Instruction(p) == Reminder(f, group);
  }

  // ---------- What a decoder hears ----------

  datatype Told = NotTold | Told(on: bool)

  /** What an instruction says about a function: 100D DDDD with F0 in front of F4 to F1, 1011 DDDD for F5 to F8,
      1010 DDDD for F9 to F12, and behind 1101 1110 and 1101 1111 a byte for F13 to F20 and for F21 to F28. */
  function Tells(i: seq<byte>, n: nat): Told {
    if |i| == 1 && i[0] / 32 == 4 then
      if n == 0 then Told(Bit(i[0], 4)) else if n <= 4 then Told(Bit(i[0], n - 1)) else NotTold
    else if |i| == 1 && i[0] / 16 == 11 then (if 5 <= n <= 8 then Told(Bit(i[0], n - 5)) else NotTold)
    else if |i| == 1 && i[0] / 16 == 10 then (if 9 <= n <= 12 then Told(Bit(i[0], n - 9)) else NotTold)
    else if |i| == 2 && i[0] == 0xDE then (if 13 <= n <= 20 then Told(Bit(i[1], n - 13)) else NotTold)
    else if |i| == 2 && i[0] == 0xDF then (if 21 <= n <= 28 then Told(Bit(i[1], n - 21)) else NotTold)
    else NotTold
  }

  /** Main result on the packets: the decoder with that address is told the functions of the group as they are, and no
      others. */
  lemma ReminderIsHeard(cab: uint16, f: Functions, group: nat, n: nat)
    requires 1 <= group <= 5 && n <= 28 && cab <= 10239
    ensures var h := HeardBy(FunctionPacket(cab, f, group));
      h.ForLoco? && h.cab == cab
      && Tells(h.instruction, n) == if Group(n) == group then Told(Bit(f.map32, n)) else NotTold
  {
    hide Bit, Shr, Pow2, Address;
    AddressIsHeard(cab, Reminder(f, group));
    var v := f.map32;
    match group
    case 1 => GroupOneIsHeard(v, n);
    case 2 => GroupIsHeard(v, 5, 4, 176, n);
    case 3 => GroupIsHeard(v, 9, 4, 160, n);
    case 4 => GroupIsHeard(v, 13, 8, 0, n);
    case _ => GroupIsHeard(v, 21, 8, 0, n);
  }

  lemma GroupIsHeard(v: nat, start: nat, count: nat, base: nat, n: nat)
    requires (count == 4 && base in {160, 176}) || (count == 8 && base == 0)
    ensures var b := base + Shr(v, start) % (if count == 4 then 16 else 256);
      && b < 256 && (count == 4 ==> b / 16 == base / 16 && b / 32 == 5)
      && (start <= n < start + count ==> Bit(b, n - start) == Bit(v, n))
  {
    hide Bit, Shr;
    ReminderFields(Shr(v, start));
    if start <= n < start + count {
      FieldBits(base + Shr(v, start) % (if count == 4 then 16 else 256), v, start, count, n - start);
    }
  }

  lemma GroupOneIsHeard(v: nat, n: nat)
    ensures var b := 128 + Shr(v, 1) % 16 + v % 2 * 16;
      b < 256 && b / 32 == 4 && Bit(b, 4) == Bit(v, 0) && (1 <= n <= 4 ==> Bit(b, n - 1) == Bit(v, n))
  {
    var w := Shr(v, 1) % 16;
    var b := 128 + w + v % 2 * 16;
    Packed(w, v % 2);
    FourthBit(w, v % 2);
    assert Shr(v, 0) == v;
    if 1 <= n <= 4 {
      assert Pow2(4) == 16;
      hide Bit, Shr, Pow2;
      assert b % 16 == w % 16;
      FieldBits(b, v, 1, 4, n - 1);
    }
  }

  lemma FourthBit(w: nat, bit: nat)
    requires w < 16 && bit < 2
    ensures Bit(128 + w + bit * 16, 4) <==> bit == 1
    ensures var b := 128 + w + bit * 16; b < 256 && b / 32 == 4 && b % 16 == w
  {
    var b := 128 + w + bit * 16;
    assert Shr(b, 4) == b / 2 / 2 / 2 / 2 by {
      ShrOnce(b, 1);
      ShrOnce(b, 2);
      ShrOnce(b, 3);
      ShrOnce(b, 4);
    }
    assert b / 2 / 2 / 2 / 2 == 8 + bit;
  }
}

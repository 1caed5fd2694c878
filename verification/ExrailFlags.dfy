/** RMFT2::flags of EXRAIL2.cpp: one byte for each id, shared by sections, latches, tasks and signals. */
module ExrailFlags {
  const MAX_FLAGS: nat := 256
  const SECTION_FLAG: bv8 := 0x80
  const LATCH_FLAG: bv8 := 0x40
  const TASK_FLAG: bv8 := 0x20
  const SIGNAL_MASK: bv8 := 0x0C
  const SIGNAL_RED: bv8 := 0x08
  const SIGNAL_AMBER: bv8 := 0x0C
  const SIGNAL_GREEN: bv8 := 0x04

  type Flags = f: seq<bv8> | |f| == MAX_FLAGS witness seq(MAX_FLAGS, _ => 0)

  /** RMFT2::setFlag; ids out of range are ignored. */
  function SetFlag(flags: Flags, id: nat, onMask: bv8, offMask: bv8): Flags {
    if id >= MAX_FLAGS then flags else flags[id := (flags[id] & !offMask) | onMask]
  }

  /** RMFT2::getFlag */
  predicate GetFlag(flags: Flags, id: nat, mask: bv8) {
    id < MAX_FLAGS && flags[id] & mask != 0
  }

  datatype Rag = Red | Amber | Green

  function Aspect(rag: Rag): bv8 {
    match rag
    case Red => SIGNAL_RED
    case Amber => SIGNAL_AMBER
    case Green => SIGNAL_GREEN
  }

  /** The operations on flags: RESERVE and IFRESERVE, FREE, FREEALL, LATCH, UNLATCH, signals, and the
      creation and end of tasks. */
  datatype Op =
    | Reserve(id: nat)
    | Free(id: nat)
    | FreeAll
    | Latch(id: nat)
    | Unlatch(id: nat)
    | Signal(slot: nat, rag: Rag)
    | TaskBegins(taskId: nat)
    | TaskEnds(taskId: nat)

  /** The loop of OPCODE_FREEALL from `i` on. */
  function FreeFrom(flags: Flags, i: nat): Flags
    requires i <= MAX_FLAGS
    decreases MAX_FLAGS - i
  {
    if i == MAX_FLAGS then flags else FreeFrom(SetFlag(flags, i, 0, SECTION_FLAG), i + 1)
  }

  function Apply(flags: Flags, op: Op): Flags {
    match op
    case Reserve(id) => if GetFlag(flags, id, SECTION_FLAG) then flags else SetFlag(flags, id, SECTION_FLAG, 0)
    case Free(id) => SetFlag(flags, id, 0, SECTION_FLAG)
    case FreeAll => FreeFrom(flags, 0)
    case Latch(id) => SetFlag(flags, id, LATCH_FLAG, 0)
    case Unlatch(id) => SetFlag(flags, id, 0, LATCH_FLAG)
    case Signal(slot, rag) => SetFlag(flags, slot, Aspect(rag), SIGNAL_MASK)
    case TaskBegins(id) => SetFlag(flags, id, TASK_FLAG, 0)
    case TaskEnds(id) => SetFlag(flags, id, 0, TASK_FLAG)
  }

  function Run(flags: Flags, ops: seq<Op>): Flags {
    if ops == [] then flags else Apply(Run(flags, ops[..|ops| - 1]), ops[|ops| - 1])
  }

  /** Does RESERVE go on, or IFRESERVE do its block? */
  predicate Succeeds(flags: Flags, id: nat) {
    !GetFlag(flags, id, SECTION_FLAG)
  }

  predicate Frees(op: Op, id: nat) {
    op == Free(id) || op == FreeAll
  }

  lemma Masks(f: bv8)
    ensures (f | 0x80) & 0x80 != 0
    ensures f & 0x80 != 0 ==> (f | 0x40) & 0x80 != 0 && (f & !0x40) & 0x80 != 0
    ensures f & 0x80 != 0 ==> (f | 0x20) & 0x80 != 0 && (f & !0x20) & 0x80 != 0
    ensures f & 0x80 != 0 ==> ((f & !0x0C) | 0x08) & 0x80 != 0 && ((f & !0x0C) | 0x04) & 0x80 != 0
    ensures f & 0x80 != 0 ==> ((f & !0x0C) | 0x0C) & 0x80 != 0
    ensures (f & !0x80) | 0 == f & !0x80 && (f & !0) | 0x80 == f | 0x80 && (f & !0) | 0x40 == f | 0x40
    ensures (f & !0) | 0x20 == f | 0x20 && (f & !0x40) | 0 == f & !0x40 && (f & !0x20) | 0 == f & !0x20
    ensures (f & !0x80) & 0x80 == 0
  {
  }

  /** Nothing but a FREE of it or a FREEALL lets a reserved section go. */
  lemma StaysReserved(flags: Flags, op: Op, id: nat)
    requires id < MAX_FLAGS && GetFlag(flags, id, SECTION_FLAG) && !Frees(op, id)
    ensures GetFlag(Apply(flags, op), id, SECTION_FLAG)
  {
    Masks(flags[id]);
  }

  lemma {:induction false} RunStaysReserved(flags: Flags, ops: seq<Op>, id: nat)
    requires id < MAX_FLAGS && GetFlag(flags, id, SECTION_FLAG)
    requires forall k | 0 <= k < |ops| :: !Frees(ops[k], id)
    ensures GetFlag(Run(flags, ops), id, SECTION_FLAG)
    decreases |ops|
  {
    if ops != [] {
      RunStaysReserved(flags, ops[..|ops| - 1], id);
      StaysReserved(Run(flags, ops[..|ops| - 1]), ops[|ops| - 1], id);
    }
  }

  lemma ReserveHolds(flags: Flags, id: nat)
    requires id < MAX_FLAGS
    ensures GetFlag(Apply(flags, Reserve(id)), id, SECTION_FLAG)
  {
    Masks(flags[id]);
  }

  /** Main result: whatever tasks, latches and signals do meanwhile, a second RESERVE of a section succeeds
      only after a FREE or FREEALL, provided the id is in range. */
  lemma SectionsExclude(flags: Flags, ops: seq<Op>, id: nat)
    requires id < MAX_FLAGS && Succeeds(Run(Apply(flags, Reserve(id)), ops), id)
    ensures exists k :: 0 <= k < |ops| && Frees(ops[k], id)
  {
    hide Apply, Run, GetFlag;
    var held := Apply(flags, Reserve(id));
    ReserveHolds(flags, id);
    if forall k | 0 <= k < |ops| :: !Frees(ops[k], id) {
      RunStaysReserved(held, ops, id);
    }
  }

  /** A section excludes exactly if its id is below MAX_FLAGS: beyond, every RESERVE succeeds. */
  lemma WhichSectionsExclude(id: nat)
    ensures id < MAX_FLAGS <==> forall flags: Flags :: !Succeeds(Apply(flags, Reserve(id)), id)
  {
    if id < MAX_FLAGS {
      forall flags: Flags
        ensures !Succeeds(Apply(flags, Reserve(id)), id)
      {
        Masks(flags[id]);
      }
    } else {
      var some: Flags := seq(MAX_FLAGS, _ => 0);
      assert Succeeds(Apply(some, Reserve(id)), id);
    }
  }

  lemma {:induction false} FreeFromFrees(flags: Flags, i: nat, id: nat)
    requires i <= MAX_FLAGS && id < MAX_FLAGS
    ensures FreeFrom(flags, i)[id] == if id < i then flags[id] else (flags[id] & !SECTION_FLAG) | 0
    decreases MAX_FLAGS - i
  {
    if i < MAX_FLAGS {
      FreeFromFrees(SetFlag(flags, i, 0, SECTION_FLAG), i + 1, id);
    }
  }

  /** After FREEALL every section can be reserved, and nothing else has changed. */
  lemma FreeAllFrees(flags: Flags, id: nat)
    ensures Succeeds(Apply(flags, FreeAll), id)
    ensures GetFlag(Apply(flags, FreeAll), id, TASK_FLAG) == GetFlag(flags, id, TASK_FLAG)
    ensures GetFlag(Apply(flags, FreeAll), id, LATCH_FLAG) == GetFlag(flags, id, LATCH_FLAG)
  {
    if id < MAX_FLAGS {
      FreeFromFrees(flags, 0, id);
      var f := flags[id];
      assert ((f & !0x80) | 0) & 0x80 == 0;
      assert ((f & !0x80) | 0) & 0x20 == f & 0x20;
      assert ((f & !0x80) | 0) & 0x40 == f & 0x40;
    }
  }

  // ---------- Each operation does its own ----------

  lemma MoreMasks(f: bv8)
    ensures (f | 0x40) & 0x40 != 0 && (f | 0x20) & 0x20 != 0 && (f & !0x40) & 0x40 == 0 && (f & !0x20) & 0x20 == 0
    ensures (f | 0x40) & 0x80 == f & 0x80 && (f & !0x40) & 0x80 == f & 0x80
    ensures (f | 0x20) & 0x80 == f & 0x80 && (f & !0x20) & 0x80 == f & 0x80
    ensures (f | 0x80) & 0x40 == f & 0x40 && (f & !0x80) & 0x40 == f & 0x40
    ensures (f | 0x20) & 0x40 == f & 0x40 && (f & !0x20) & 0x40 == f & 0x40
    ensures (f | 0x80) & 0x20 == f & 0x20 && (f & !0x80) & 0x20 == f & 0x20
    ensures (f | 0x40) & 0x20 == f & 0x20 && (f & !0x40) & 0x20 == f & 0x20
  {
  }

  lemma SignalMasks(f: bv8)
    ensures ((f & !0x0C) | 0x08) & 0x0C == 0x08 && ((f & !0x0C) | 0x04) & 0x0C == 0x04
    ensures ((f & !0x0C) | 0x0C) & 0x0C == 0x0C
    ensures ((f & !0x0C) | 0x08) & 0xE0 == f & 0xE0 && ((f & !0x0C) | 0x04) & 0xE0 == f & 0xE0
    ensures ((f & !0x0C) | 0x0C) & 0xE0 == f & 0xE0
    ensures (f | 0x80) & 0x0C == f & 0x0C && (f & !0x80) & 0x0C == f & 0x0C
    ensures (f | 0x40) & 0x0C == f & 0x0C && (f & !0x40) & 0x0C == f & 0x0C
    ensures (f | 0x20) & 0x0C == f & 0x0C && (f & !0x20) & 0x0C == f & 0x0C
  {
  }

  lemma TopBits(f: bv8, g: bv8)
    requires f & 0xE0 == g & 0xE0
    ensures f & 0x80 == g & 0x80 && f & 0x40 == g & 0x40 && f & 0x20 == g & 0x20
  {
  }

  /** isSignal */
  predicate Shows(flags: Flags, slot: nat, rag: Rag) {
    slot < MAX_FLAGS && flags[slot] & SIGNAL_MASK == Aspect(rag)
  }

  /** The byte of one id after an operation. */
  lemma ByteAfter(flags: Flags, op: Op, id: nat)
    requires id < MAX_FLAGS
    ensures Apply(flags, op)[id] ==
      match op
      case Reserve(n) => if n == id then flags[id] | 0x80 else flags[id]
      case Free(n) => if n == id then flags[id] & !0x80 else flags[id]
      case FreeAll => flags[id] & !0x80
      case Latch(n) => if n == id then flags[id] | 0x40 else flags[id]
      case Unlatch(n) => if n == id then flags[id] & !0x40 else flags[id]
      case Signal(n, rag) => if n == id then (flags[id] & !0x0C) | Aspect(rag) else flags[id]
      case TaskBegins(n) => if n == id then flags[id] | 0x20 else flags[id]
      case TaskEnds(n) => if n == id then flags[id] & !0x20 else flags[id]
  {
    Masks(flags[id]);
    AlreadySet(flags[id]);
    if op.FreeAll? {
      FreeFromFrees(flags, 0, id);
    }
  }

  lemma AlreadySet(f: bv8)
    ensures f & 0x80 != 0 ==> f | 0x80 == f
  {
  }

  /** Main result: over every operation, a section, a latch and a task are exactly as the last operation on them
      left them, and a signal shows the aspect that it was last set to; nothing else changes them. */
  lemma OwnFlagsOnly(flags: Flags, op: Op, id: nat, rag: Rag)
    requires id < MAX_FLAGS
    ensures var t := Apply(flags, op);
      && (Succeeds(t, id) <==> op != Reserve(id) && (Frees(op, id) || Succeeds(flags, id)))
      && (GetFlag(t, id, LATCH_FLAG) <==> op == Latch(id) || (op != Unlatch(id) && GetFlag(flags, id, LATCH_FLAG)))
      && (GetFlag(t, id, TASK_FLAG) <==> op == TaskBegins(id) || (op != TaskEnds(id) && GetFlag(flags, id, TASK_FLAG)))
      && (Shows(t, id, rag) <==>
            if op.Signal? && op.slot == id then op.rag == rag else Shows(flags, id, rag))
  {
    ByteAfter(flags, op, id);
    Masks(flags[id]);
    MoreMasks(flags[id]);
    SignalMasks(flags[id]);
    if op.Signal? && op.slot == id {
      TopBits(Apply(flags, op)[id], flags[id]);
    }
    hide Apply;
  }
}

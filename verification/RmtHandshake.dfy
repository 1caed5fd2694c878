/** The handshake of DCCRMT.cpp: RMTfillData in the main loop, RMTinterrupt at each end of a loop of
    the transmitter, and any interleaving of the two. */
module RmtHandshake {
  import opened Bytes
  import opened Rmt

  /** The flags, the buffer that RMTfillData fills, and what the transmitter has behind the preamble. */
  datatype Channel = Channel(main: bool, ready: bool, repeat: byte, data: seq<Item>, dataLen: nat, loaded: seq<Item>)

  predicate Typed(c: Channel) {
    |c.data| == MAX_DATA_LEN && c.dataLen <= MAX_DATA_LEN
  }

  /** The idle packet on the main track, the reset packet on the programming track. */
  function Filler(main: bool): seq<byte> {
    if main then [0xFF, 0x00, 0xFF] else [0x00, 0x00, 0x00]
  }

  /** Where the main loop is in RMTfillData, if it is in there. */
  datatype Writer =
    | Away
    | Called(buffer: seq<byte>, repeats: byte)
    | Begun(buffer: seq<byte>, repeats: byte)
    | Filling(buffer: seq<byte>, repeats: byte, n: nat)
    | Filled(buffer: seq<byte>, repeats: byte)

  /** Items that the transmitter is asked to loop over `times` times. */
  datatype Slot = Slot(items: seq<Item>, times: nat, filler: bool)

  /** The machine with its history: what was loaded after each interrupt, the slots that belong to, what
      RMTfillData accepted, and whether an interrupt has found data that it was not to send. */
  datatype System = System(c: Channel, w: Writer,
    shown: seq<seq<Item>>, log: seq<Slot>, accepted: seq<Slot>, lost: bool)

  datatype Event = Tick | Call(buffer: seq<byte>, repeats: byte) | Go

  function NewSystem(main: bool): System {
    System(Channel(main, false, 0, seq(MAX_DATA_LEN, _ => Eot), 0, Items(Filler(main))), Away, [], [], [], false)
  }

  /** RMTinterrupt */
  function Interrupt(s: System): System
    requires Typed(s.c)
  {
    var c := s.c;
    if !c.ready && c.repeat == 0 then
      var idle := Items(Filler(c.main));
      s.(c := c.(loaded := idle), shown := s.shown + [idle], log := s.log + [Slot(idle, 1, true)])
    else
      var loaded := if c.ready then c.data[..c.dataLen] else c.loaded;
      s.(c := c.(ready := false, loaded := loaded, repeat := if c.repeat > 0 then c.repeat - 1 else 0),
         shown := s.shown + [loaded],
         log := if c.ready then s.log + [Slot(loaded, if c.repeat == 0 then 256 else c.repeat, false)] else s.log,
         lost := s.lost || (c.ready && c.repeat == 0))
  }

  /** Nine items of the data buffer. */
  function Put(data: seq<Item>, at: nat, items: seq<Item>): (r: seq<Item>)
    requires at + |items| <= |data|
    ensures |r| == |data|
  {
    data[..at] + items + data[at + |items|..]
  }

  /** A statement of RMTfillData, or a turn of its outer loop. */
  function Write(s: System): System
    requires Typed(s.c)
  {
    match s.w
    case Away => s
    case Called(buffer, repeats) => s.(w := if s.c.repeat > 0 then Away else Begun(buffer, repeats))
    case Begun(buffer, repeats) =>
      s.(w := if s.c.ready || |buffer| > MAX_DATA_BYTES then Away else Filling(buffer, repeats, 0))
    case Filling(buffer, repeats, n) =>
      if n < |buffer| && n < MAX_DATA_BYTES then
        s.(w := Filling(buffer, repeats, n + 1), c := s.c.(data := Put(s.c.data, 9 * n, ByteItems(buffer[n]))))
      else if 0 < |buffer| <= MAX_DATA_BYTES then
        s.(w := Filled(buffer, repeats),
           c := s.c.(data := s.c.data[9 * |buffer| - 1 := One][9 * |buffer| := Eot], dataLen := 9 * |buffer| + 1))
      else s
    case Filled(buffer, repeats) =>
      if buffer == [] then s
      else s.(w := Away, c := s.c.(ready := true, repeat := (repeats + 1) % 256),
              accepted := s.accepted + [Slot(Items(buffer), repeats + 1, false)])
  }

  function Do(s: System, e: Event): System
    requires Typed(s.c)
  {
    match e
    case Tick => Interrupt(s)
    case Call(buffer, repeats) => if s.w.Away? && buffer != [] then s.(w := Called(buffer, repeats)) else s
    case Go => Write(s)
  }

  // ---------- What fits ----------

  function Last<T>(q: seq<T>): T
    requires q != []
  {
    q[|q| - 1]
  }

  function Front<T>(q: seq<T>): seq<T>
    requires q != []
  {
    q[..|q| - 1]
  }

  function Copies<T>(x: T, n: nat): seq<T> {
    seq(n, _ => x)
  }

  /** How often a slot is really shown: 256 times are too many for a byte, and are once. */
  function Shown(slot: Slot): nat {
    if slot.times == 256 then 1 else slot.times
  }

  function Expand(log: seq<Slot>): seq<seq<Item>> {
    if log == [] then [] else Expand(Front(log)) + Copies(Last(log).items, Shown(Last(log)))
  }

  function Real(log: seq<Slot>): seq<Slot> {
    if log == [] then [] else Real(Front(log)) + if Last(log).filler then [] else [Last(log)]
  }

  /** A slot that was loaded with more repeats than a byte can count. */
  predicate HasLost(log: seq<Slot>) {
    exists i | 0 <= i < |log| :: log[i].times == 256
  }

  /** What was accepted and is not yet loaded. */
  function Offered(c: Channel): seq<Slot>
    requires Typed(c)
  {
    if c.ready then [Slot(c.data[..c.dataLen], if c.repeat == 0 then 256 else c.repeat, false)] else []
  }

  /** What is shown are the slots, less the repeats still to come; the slots that are no fillers are what
      was accepted, in order, less what is still offered; data is lost by packets with 255 repeats only. */
  ghost predicate Fits(s: System)
    requires Typed(s.c)
  {
    && Real(s.log) + Offered(s.c) == s.accepted
    && (if s.c.ready then s.shown == Expand(s.log)
        else s.shown + Copies(s.c.loaded, s.c.repeat) == Expand(s.log))
    && s.lost == HasLost(s.log)
  }

  /** While the main loop is filling the buffer, the flags say so, and what it has done is there. */
  ghost predicate WriterFits(s: System)
    requires Typed(s.c)
  {
    match s.w
    case Away => true
    case Called(buffer, _) => buffer != []
    case Begun(buffer, _) => buffer != [] && s.c.repeat == 0
    case Filling(buffer, _, n) =>
      && buffer != [] && s.c.repeat == 0 && !s.c.ready && |buffer| <= MAX_DATA_BYTES && n <= |buffer|
      && s.c.data[..9 * n] == Bytewise(buffer[..n])
    case Filled(buffer, _) =>
      && buffer != [] && s.c.repeat == 0 && !s.c.ready && |buffer| <= MAX_DATA_BYTES
      && s.c.dataLen == 9 * |buffer| + 1 && s.c.data[..s.c.dataLen] == Items(buffer)
  }

  lemma CopiesOne(items: seq<Item>, n: nat)
    ensures Copies(items, n + 1) == [items] + Copies(items, n)
    ensures Copies(items, 0) == []
  {
  }

  lemma LogOne(log: seq<Slot>, slot: Slot)
    ensures HasLost(log + [slot]) == (HasLost(log) || slot.times == 256)
    ensures Expand(log + [slot]) == Expand(log) + Copies(slot.items, Shown(slot))
    ensures Real(log + [slot]) == Real(log) + if slot.filler then [] else [slot]
  {
    var more := log + [slot];
    assert Front(more) == log;
    assert forall i | 0 <= i < |log| :: more[i] == log[i];
    assert more[|log|] == slot;
  }

  lemma TickFits(s: System)
    requires Typed(s.c) && Fits(s)
    ensures Typed(Interrupt(s).c) && Fits(Interrupt(s))
  {
    hide Copies, Expand, Real, Items, HasLost;
    var c, u := s.c, Interrupt(s);
    CopiesOne(c.loaded, if c.repeat > 0 then c.repeat - 1 else 0);
    if !c.ready && c.repeat == 0 {
      var idle := Items(Filler(c.main));
      LogOne(s.log, Slot(idle, 1, true));
      CopiesOne(idle, 0);
    } else if c.ready {
      var slot := Offered(c)[0];
      LogOne(s.log, slot);
      CopiesOne(slot.items, Shown(slot) - 1);
    }
  }

  lemma TickKeepsWriter(s: System)
    requires Typed(s.c) && WriterFits(s)
    ensures WriterFits(Interrupt(s))
  {
    hide Items, Bytewise;
  }

  lemma WriteFits(s: System)
    requires Typed(s.c) && WriterFits(s) && Fits(s)
    ensures Typed(Write(s).c) && Fits(Write(s))
  {
    hide Copies, Expand, Real, Items, Bytewise, ByteItems, Put;
    if s.w.Filled? {
      CopiesOne(s.c.loaded, 0);
    }
  }

  lemma WriteKeepsWriter(s: System)
    requires Typed(s.c) && WriterFits(s) && Typed(Write(s).c)
    ensures WriterFits(Write(s))
  {
    hide ByteItems;
    if s.w.Filling? {
      var buffer, n, data := s.w.buffer, s.w.n, Write(s).c.data;
      if n < |buffer| {
        assert buffer[..n + 1][..n] == buffer[..n];
        assert data[..9 * (n + 1)] == s.c.data[..9 * n] + ByteItems(buffer[n]);
      } else {
        assert buffer[..n] == buffer;
        assert data[..9 * n + 1] == s.c.data[..9 * n][9 * n - 1 := One] + [Eot];
      }
    }
  }

  // ---------- Every run ----------

  ghost predicate Good(s: System) {
    Typed(s.c) && Fits(s) && WriterFits(s)
  }

  function RunFrom(main: bool, events: seq<Event>): System {
    if events == [] then NewSystem(main)
    else
      var s := RunFrom(main, events[..|events| - 1]);
      if Typed(s.c) then Do(s, events[|events| - 1]) else s
  }

  lemma StepKeepsGood(s: System, e: Event)
    requires Good(s)
    ensures Good(Do(s, e))
  {
    hide Fits, WriterFits;
    match e
    case Tick =>
      TickFits(s);
      TickKeepsWriter(s);
    case Call(_, _) => CallKeepsGood(s, e);
    case Go =>
      WriteFits(s);
      WriteKeepsWriter(s);
  }

  lemma CallKeepsGood(s: System, e: Event)
    requires Good(s) && e.Call?
    ensures Good(Do(s, e))
  {
    hide Copies, Expand, Real, Items, Bytewise;
  }

  /** Main result: in every interleaving, a packet that was accepted with r < 255 repeats stays loaded for
      exactly r + 1 interrupts before anything replaces it, one with 255 for one interrupt; accepted packets
      are loaded in order and none is skipped; the branch for lost data is reached exactly if one of those loaded
      had 255 repeats. */
  lemma {:induction false} AcceptedIsShown(main: bool, events: seq<Event>)
    ensures Good(RunFrom(main, events))
    ensures var s := RunFrom(main, events);
      && Typed(s.c)
      && Real(s.log) + Offered(s.c) == s.accepted
      && (if s.c.ready then s.shown == Expand(s.log) else s.shown + Copies(s.c.loaded, s.c.repeat) == Expand(s.log))
      && s.lost == HasLost(s.log)
    decreases |events|
  {
    hide Copies, Expand, Real, Items;
    if events == [] {
      StartIsGood(main);
    } else {
      AcceptedIsShown(main, events[..|events| - 1]);
      StepKeepsGood(RunFrom(main, events[..|events| - 1]), events[|events| - 1]);
    }
  }

  /** Main result: each interrupt loads what has been accepted and not yet loaded, or leaves the packet loaded
      while repeats of it are left, and loads a filler only if there is neither. */
  lemma AcceptedIsNext(main: bool, events: seq<Event>)
    ensures var s := RunFrom(main, events);
      && Typed(s.c)
      && var u := Interrupt(s);
         && u.shown != [] && u.shown == s.shown + [Last(u.shown)] && u.c.loaded == Last(u.shown)
         && if Offered(s.c) != [] then
              && u.log == s.log + Offered(s.c) && Last(u.shown) == Offered(s.c)[0].items && Offered(u.c) == []
              && u.c.repeat == Shown(Offered(s.c)[0]) - 1
            else if s.c.repeat > 0 then
              u.log == s.log && Last(u.shown) == s.c.loaded && u.c.repeat == s.c.repeat - 1
            else u.log == s.log + [Slot(Items(Filler(s.c.main)), 1, true)] && Last(u.shown) == Items(Filler(s.c.main))
  {
    hide Items, Filler, Fits, WriterFits, Expand, Real, Copies, HasLost;
    AcceptedIsShown(main, events);
  }

  /** The fillers: for all decoders and with nothing to do on the main track, and the reset on the programming
      track. */
  lemma FillersAre()
    ensures Filler(true) == [0xFF, 0x00, 0xFF] && Filler(false) == [0, 0, 0]
  {
  }

  /** A run that gets there: a packet of one byte with 255 repeats. */
  lemma LostDataIsReached(main: bool, b: byte)
    ensures RunFrom(main, [Call([b], 255), Go, Go, Go, Go, Go, Tick]).lost
  {
    hide Put, ByteItems, Items;
    var e: seq<Event> := [Call([b], 255), Go, Go, Go, Go, Go, Tick];
    assert e[..6] == [Call([b], 255), Go, Go, Go, Go, Go] && e[..6][..5] == e[..5];
    assert e[..5][..4] == e[..4] && e[..4][..3] == e[..3] && e[..3][..2] == e[..2] && e[..2][..1] == e[..1];
    assert e[..1][..0] == [];
    var s0 := NewSystem(main);
    assert RunFrom(main, e[..1]) == s0.(w := Called([b], 255));
    assert RunFrom(main, e[..2]) == s0.(w := Begun([b], 255));
    assert RunFrom(main, e[..3]) == s0.(w := Filling([b], 255, 0));
    var s4 := RunFrom(main, e[..4]);
    assert s4.w == Filling([b], 255, 1) && !s4.c.ready && s4.c.repeat == 0 && Typed(s4.c);
    assert RunFrom(main, e[..5]).w == Filled([b], 255);
    var s := RunFrom(main, e[..6]);
    assert s.c.ready && s.c.repeat == 0;
  }

  lemma StartIsGood(main: bool)
    ensures Good(NewSystem(main))
  {
  }

  // ---------- The channel in place ----------

  class RMTChannel {
    const isMain: bool
    const data: array<Item>
    var dataLen: nat
    var dataReady: bool
    var dataRepeat: byte
    ghost var loaded: seq<Item>     // what the transmitter has behind the preamble

    ghost predicate Valid()
      reads this
    {
      data.Length == MAX_DATA_LEN && dataLen <= MAX_DATA_LEN
    }

    ghost function Abs(): Channel
      reads this, data
    {
      Channel(isMain, dataReady, dataRepeat, data[..], dataLen, loaded)
    }

    constructor (isMain: bool)
      ensures Valid() && fresh(data) && Abs() == NewSystem(isMain).c
    {
      this.isMain := isMain;
      data := new Item[MAX_DATA_LEN](_ => Eot);
      dataLen, dataReady, dataRepeat, loaded := 0, false, 0, Items(Filler(isMain));
      new;
      assert data[..] == seq(MAX_DATA_LEN, _ => Eot);
    }

    /** The inner loop of RMTfillData: eight bits and a zero. */
    method FillByte(b: byte, at: nat)
      requires Valid() && at + 9 <= data.Length
      modifies data
      ensures data[..] == Put(old(data[..]), at, ByteItems(b))
    {
      var bit := 0;
      while bit < 8
        invariant bit <= 8
        invariant forall i | 0 <= i < bit :: data[at + i] == ByteItems(b)[i]
        invariant forall i | 0 <= i < data.Length && !(at <= i < at + bit) :: data[i] == old(data[i])
      {
        EachBit(b, bit);
        data[at + bit] := if Bit(b, 7 - bit) then One else Zero;
        bit := bit + 1;
      }
      data[at + 8] := Zero;
      assert forall i | at <= i < at + 9 :: data[i] == ByteItems(b)[i - at];
    }

    lemma EachBit(b: byte, bit: nat)
      requires bit < 8
      ensures ByteItems(b)[bit] == ItemOf(Bit(b, 7 - bit))
    {
    }

    /** The loops of RMTfillData. */
    method Encode(buffer: seq<byte>)
      requires Valid() && 0 < |buffer| <= MAX_DATA_BYTES
      modifies data, this`dataLen
      ensures Valid() && dataLen == 9 * |buffer| + 1 && data[..dataLen] == Items(buffer)
    {
      hide ByteItems;
      var n := 0;
      while n < |buffer|
        invariant n <= |buffer| && Valid() && data[..9 * n] == Bytewise(buffer[..n])
      {
        FillByte(buffer[n], 9 * n);
        assert buffer[..n + 1][..n] == buffer[..n];
        assert data[..9 * (n + 1)] == Bytewise(buffer[..n]) + ByteItems(buffer[n]);
        n := n + 1;
      }
      assert buffer[..n] == buffer;
      data[9 * n - 1] := One;
      data[9 * n] := Eot;
      dataLen := 9 * n + 1;
      assert data[..dataLen] == Bytewise(buffer)[9 * n - 1 := One] + [Eot];
    }

    /** RMTfillData, if no interrupt comes in between: refused while there is work left, or accepted.  `outside`
        says that an item would be written in front of the data, which only a packet without bytes leads to. */
    method FillData(buffer: seq<byte>, repeatCount: byte) returns (r: int, outside: bool)
      requires Valid()
      modifies this`dataLen, this`dataReady, this`dataRepeat, data
      ensures Valid() && loaded == old(loaded)
      ensures r == 0 <==> old(dataRepeat) == 0 && !old(dataReady) && |buffer| <= MAX_DATA_BYTES
      ensures outside <==> r == 0 && buffer == []
      ensures r == 0 && !outside ==>
        dataReady && dataRepeat == (repeatCount + 1) % 256 && data[..dataLen] == Items(buffer)
      ensures r != 0 ==> r == (if old(dataRepeat) > 0 then old(dataRepeat) else if old(dataReady) then 1000 else -1)
      ensures r != 0 ==> Abs() == old(Abs())
    {
      if dataRepeat > 0 { return dataRepeat, false; }
      if dataReady { return 1000, false; }
      if |buffer| * 9 + 1 > MAX_DATA_LEN { return -1, false; }
      if buffer == [] { return 0, true; }
      Encode(buffer);
      dataReady := true;
      dataRepeat := (repeatCount + 1) % 256;
      return 0, false;
    }

    /** RMTinterrupt */
    method OnInterrupt()
      requires Valid()
      modifies this`dataReady, this`dataRepeat, this`loaded
      ensures Valid()
      ensures forall s: System | s.c == old(Abs()) :: Interrupt(s).c == Abs()
    {
      hide Items;
      if !dataReady && dataRepeat == 0 {
        loaded := Items(Filler(isMain));
        return;
      }
      if dataReady {
        loaded := data[..dataLen];
        dataReady := false;
      }
      if dataRepeat > 0 {
        dataRepeat := dataRepeat - 1;
      }
    }
  }

  // ---------- When a call is accepted ----------

  /** How many statements of RMTfillData are left. */
  function StepsLeft(w: Writer): nat {
    match w
    case Away => 0
    case Called(buffer, _) => |buffer| + 4
    case Begun(buffer, _) => |buffer| + 3
    case Filling(buffer, _, n) => if n <= |buffer| then |buffer| - n + 2 else 2
    case Filled(_, _) => 1
  }

  function Gos(events: seq<Event>): nat
    decreases |events|
  {
    if events == [] then 0 else (if events[0].Go? then 1 else 0) + Gos(events[1..])
  }

  function RunOn(s: System, events: seq<Event>): System
    requires Typed(s.c)
    decreases |events|
  {
    if events == [] then s
    else
      var t := Do(s, events[0]);
      if Typed(t.c) then RunOn(t, events[1..]) else t
  }

  /** RMTfillData goes on to accept. */
  ghost predicate Accepting(s: System, buffer: seq<byte>, repeats: byte) {
    && !s.w.Away? && s.w.buffer == buffer && s.w.repeats == repeats && 0 < |buffer| <= 6
    && s.c.repeat == 0 && !s.c.ready
  }

  lemma AcceptingStep(s: System, e: Event, buffer: seq<byte>, repeats: byte)
    requires Good(s) && Accepting(s, buffer, repeats) && !e.Call?
    ensures var t := Do(s, e);
      if e.Go? && s.w.Filled? then t.w.Away? && t.accepted == s.accepted + [Slot(Items(buffer), repeats + 1, false)]
      else
        && Accepting(t, buffer, repeats) && t.accepted == s.accepted
        && StepsLeft(t.w) == StepsLeft(s.w) - if e.Go? then 1 else 0
  {
    hide Items, Bytewise, ByteItems, Fits, Put;
  }

  /** Main result: a packet of one to six bytes that RMTfillData is called for while nothing waits or repeats is
      accepted, whatever interrupts come in between. */
  lemma {:induction false} FreeIsAccepted(s: System, events: seq<Event>, buffer: seq<byte>, repeats: byte)
    requires Good(s) && Accepting(s, buffer, repeats) && Gos(events) == StepsLeft(s.w)
    requires (forall k | 0 <= k < |events| :: !events[k].Call?) && events != [] && events[|events| - 1].Go?
    ensures var t := RunOn(s, events);
      t.w.Away? && t.accepted == s.accepted + [Slot(Items(buffer), repeats + 1, false)]
    decreases |events|
  {
    hide Good, Accepting, Items, Do;
    var e := events[0];
    GoodIsTyped(s);
    AcceptingStep(s, e, buffer, repeats);
    StepKeepsGood(s, e);
    GoodIsTyped(Do(s, e));
    OnlyFilledEnds(s, e, buffer, repeats);
    if |events| > 1 {
      assert events[|events| - 1] == events[1..][|events| - 2];
      if e.Go? && s.w.Filled? {
        LastIsGo(events[1..]);
      } else {
        FreeIsAccepted(Do(s, e), events[1..], buffer, repeats);
      }
    } else {
      assert Gos(events[1..]) == 0;
    }
  }

  lemma GoodIsTyped(s: System)
    requires Good(s)
    ensures Typed(s.c)
  {
  }

  lemma OnlyFilledEnds(s: System, e: Event, buffer: seq<byte>, repeats: byte)
    requires Good(s) && Accepting(s, buffer, repeats)
    ensures StepsLeft(s.w) == 1 <==> s.w.Filled?
    ensures StepsLeft(s.w) > 0
  {
    hide Items, Bytewise, Fits;
  }

  lemma LastIsGo(events: seq<Event>)
    requires events != [] && events[|events| - 1].Go?
    ensures Gos(events) > 0
    decreases |events|
  {
    if |events| > 1 {
      LastIsGo(events[1..]);
    }
  }
}

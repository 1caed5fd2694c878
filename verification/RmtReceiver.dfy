/** The track output of DCCRMT.cpp from end to end: what RMTfillData accepts is what a receiver reads. */
module RmtReceiver {
  import opened Bytes
  import opened DccSignal
  import opened Rmt
  import opened RmtHandshake

  /** A packet with its checksum, as it was handed to RMTfillData. */
  datatype Request = Request(bytes: seq<byte>, repeats: byte)

  /** The packets that RMTfillData accepted. */
  function Accepted(main: bool, events: seq<Event>): seq<Request> {
    if events == [] then []
    else
      var w := RunFrom(main, events[..|events| - 1]).w;
      Accepted(main, events[..|events| - 1]) +
      if events[|events| - 1].Go? && w.Filled? && w.buffer != [] then [Request(w.buffer, w.repeats)] else []
  }

  /** How often a packet is transmitted: one more than its repeats, but once with 255. */
  function Times(r: Request): nat {
    if r.repeats == 255 then 1 else r.repeats + 1
  }

  /** A filler for each of the slots that are one, and for the others the requests in order. */
  function Sent(main: bool, log: seq<Slot>, requests: seq<Request>): seq<seq<byte>>
    requires |Real(log)| <= |requests|
  {
    if log == [] then []
    else
      var before := Sent(main, Front(log), requests);
      if Last(log).filler then before + [Filler(main)]
      else
        var r := requests[|Real(Front(log))|];
        before + Copies(r.bytes, Times(r))
  }

  /** The transmitter's loops: the one that it was started with, and those that the interrupts loaded. */
  function Output(preamble: nat, main: bool, shown: seq<seq<Item>>): seq<bool> {
    Loop(preamble, Items(Filler(main))) + Shows(preamble, shown)
  }

  function Shows(preamble: nat, shown: seq<seq<Item>>): seq<bool> {
    if shown == [] then [] else Shows(preamble, Front(shown)) + Loop(preamble, Last(shown))
  }

  // ---------- Items and packets ----------

  /** The slots of these requests. */
  ghost predicate Slots(slots: seq<Slot>, requests: seq<Request>) {
    |slots| == |requests| && forall k | 0 <= k < |slots| ::
      requests[k].bytes != [] && slots[k] == Slot(Items(requests[k].bytes), requests[k].repeats + 1, false)
  }

  lemma {:induction false} AcceptedSlots(main: bool, events: seq<Event>)
    ensures Slots(RunFrom(main, events).accepted, Accepted(main, events))
    decreases |events|
  {
    if events != [] {
      hide *;
      var before, e := events[..|events| - 1], events[|events| - 1];
      var s := RunFrom(main, before);
      AcceptedSlots(main, before);
      LastStep(main, events);
      OnlyWritesAccept(s, e);
      if e.Go? && s.w.Filled? && s.w.buffer != [] {
        SlotsGrow(s.accepted, Accepted(main, before), s.w.buffer, s.w.repeats);
      } else {
        assert s.accepted + [] == s.accepted && Accepted(main, before) + [] == Accepted(main, before);
      }
    }
  }

  lemma LastStep(main: bool, events: seq<Event>)
    requires events != []
    ensures var s, e := RunFrom(main, events[..|events| - 1]), events[|events| - 1];
      && Typed(s.c) && RunFrom(main, events) == Do(s, e)
      && Accepted(main, events) == Accepted(main, events[..|events| - 1]) +
           if e.Go? && s.w.Filled? && s.w.buffer != [] then [Request(s.w.buffer, s.w.repeats)] else []
  {
    hide Do, Fits, WriterFits, Expand, Real, Copies, HasLost;
    AcceptedIsShown(main, events[..|events| - 1]);
  }

  lemma SlotsGrow(slots: seq<Slot>, requests: seq<Request>, bytes: seq<byte>, repeats: byte)
    requires Slots(slots, requests) && bytes != []
    ensures Slots(slots + [Slot(Items(bytes), repeats + 1, false)], requests + [Request(bytes, repeats)])
  {
    hide Items;
  }

  lemma OnlyWritesAccept(s: System, e: Event)
    requires Typed(s.c)
    ensures Do(s, e).accepted == s.accepted +
      if e.Go? && s.w.Filled? && s.w.buffer != [] then [Slot(Items(s.w.buffer), s.w.repeats + 1, false)] else []
  {
    hide Items;
  }

  /** The fillers of a run are the track's. */
  ghost predicate FillersOf(main: bool, log: seq<Slot>) {
    forall k | 0 <= k < |log| && log[k].filler :: log[k] == Slot(Items(Filler(main)), 1, true)
  }

  lemma FillersStay(s: System, e: Event)
    requires Typed(s.c) && FillersOf(s.c.main, s.log)
    ensures FillersOf(s.c.main, Do(s, e).log) && Do(s, e).c.main == s.c.main
  {
    hide Items, Filler, Put;
  }

  lemma {:induction false} FillersAre(main: bool, events: seq<Event>)
    ensures FillersOf(main, RunFrom(main, events).log) && RunFrom(main, events).c.main == main
    decreases |events|
  {
    if events != [] {
      hide Do, FillersOf;
      FillersAre(main, events[..|events| - 1]);
      LastStep(main, events);
      FillersStay(RunFrom(main, events[..|events| - 1]), events[|events| - 1]);
    }
  }

  /** `packets` as items. */
  function AllItems(packets: seq<seq<byte>>): (r: seq<seq<Item>>)
    requires forall i | 0 <= i < |packets| :: packets[i] != []
    ensures |r| == |packets| && forall i | 0 <= i < |packets| :: r[i] == Items(packets[i])
  {
    seq(|packets|, i requires 0 <= i < |packets| => Items(packets[i]))
  }

  /** What the slots show are the items of what is to be sent. */
  lemma {:induction false} ExpandIsSent(main: bool, log: seq<Slot>, slots: seq<Slot>, requests: seq<Request>)
    requires Slots(slots, requests) && FillersOf(main, log) && Real(log) <= slots
    ensures forall i | 0 <= i < |Sent(main, log, requests)| :: Sent(main, log, requests)[i] != []
    ensures Expand(log) == AllItems(Sent(main, log, requests))
    decreases |log|
  {
    hide Items, Filler;
    if log != [] {
      var slot, n := Last(log), |Real(Front(log))|;
      ExpandIsSent(main, Front(log), slots, requests);
      if slot.filler {
        FillerIsSome(main);
        assert Copies(slot.items, 1) == [slot.items];
      } else {
        assert slots[n] == slot;
        assert Shown(slot) == Times(requests[n]);
      }
    }
  }

  lemma FillerIsSome(main: bool)
    ensures Filler(main) != []
  {
  }

  lemma {:induction false} ShowsAreLoops(preamble: nat, packets: seq<seq<byte>>)
    requires forall i | 0 <= i < |packets| :: packets[i] != []
    ensures Shows(preamble, AllItems(packets)) == Loops(preamble, packets)
    decreases |packets|
  {
    hide Items, Loop;
    if packets != [] {
      var n := |packets| - 1;
      ShowsAreLoops(preamble, packets[..n]);
      assert Front(AllItems(packets)) == AllItems(packets[..n]);
    }
  }

  lemma {:induction false} LoopsInFront(preamble: nat, first: seq<byte>, packets: seq<seq<byte>>)
    requires first != [] && forall i | 0 <= i < |packets| :: packets[i] != []
    ensures forall i | 0 <= i < |[first] + packets| :: ([first] + packets)[i] != []
    ensures Loops(preamble, [first] + packets) == Loop(preamble, Items(first)) + Loops(preamble, packets)
    decreases |packets|
  {
    hide Items, Loop;
    var all := [first] + packets;
    var n := |all| - 1;
    if packets == [] {
      assert all[..0] == [];
      assert Loops(preamble, all) == Loops(preamble, []) + Loop(preamble, Items(first));
    } else {
      LoopsInFront(preamble, first, packets[..n - 1]);
      assert all[..n] == [first] + packets[..n - 1];
    }
  }

  /** Main result: in every interleaving of RMTfillData and the interrupts, a receiver on the track has read, after
      the first filler, as many packets as there were interrupts: each accepted packet in order, for its repeats and
      one times in a row, with nothing but single fillers in between; only the repeats of the last one and what has
      just been accepted may still be missing. */
  lemma ReceiverReadsAccepted(main: bool, events: seq<Event>, preamble: nat)
    requires preamble >= MIN_PREAMBLE
    ensures var s, requests := RunFrom(main, events), Accepted(main, events);
      && Typed(s.c) && |Real(s.log)| + |Offered(s.c)| == |requests|
      && var sent := Sent(main, s.log, requests);
         var read := Read(Silent(0), [true] + Output(preamble, main, s.shown)).packets;
         && |read| == |s.shown| + 1 && read <= [Filler(main)] + sent
         && |sent| == |s.shown| + if s.c.ready then 0 else s.c.repeat
  {
    hide Items, Filler, Loop, Expand, Real, Copies, Read, Offered, Slots, FillersOf, HasLost;
    var s, requests := RunFrom(main, events), Accepted(main, events);
    AcceptedIsShown(main, events);
    AcceptedSlots(main, events);
    FillersAre(main, events);
    SameLength(s.accepted, requests);
    ExpandIsSent(main, s.log, s.accepted, requests);
    var sent := Sent(main, s.log, requests);
    CopiesCount(s.c.loaded, s.c.repeat);
    var packets := sent[..|s.shown|];
    assert s.shown == AllItems(packets);
    FillerIsSome(main);
    ShowsAreLoops(preamble, packets);
    LoopsInFront(preamble, Filler(main), packets);
    LoopsReadBack(preamble, [Filler(main)] + packets);
  }

  lemma SameLength(slots: seq<Slot>, requests: seq<Request>)
    requires Slots(slots, requests)
    ensures |slots| == |requests|
  {
  }

  lemma CopiesCount<T>(x: T, n: nat)
    ensures |Copies(x, n)| == n
  {
  }
}

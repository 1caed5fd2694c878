/** DCCQueue.cpp as it is: linked slots in two queues and a recycle list, relinked in place.
    Every operation does to the slots what PacketQueue says it does to the sequences. */
module PacketScheduler {
  import opened Bytes
  import opened Lists
  import opened PacketQueue

  /** The struct PendingSlot: a link and, in one value, all its other fields. */
  class PendingSlot {
    var next: PendingSlot?
    var data: Entry

    constructor (data: Entry)
      ensures next == null && this.data == data
    {
      next, this.data := null, data;
    }
  }

  ghost function At(slots: seq<PendingSlot>, k: nat): PendingSlot? {
    if k < |slots| then slots[k] else null
  }

  /** `head` is null or the first of distinct slots each linked to the next, the last to null. */
  ghost predicate Chain(head: PendingSlot?, slots: seq<PendingSlot>, nodes: set<PendingSlot>)
    reads nodes`next
  {
    && head == At(slots, 0)
    && (forall i | 0 <= i < |slots| :: slots[i] in nodes)
    && (forall i {:trigger slots[i].next} | 0 <= i < |slots| :: slots[i].next == At(slots, i + 1))
    && (forall i, j | 0 <= i < j < |slots| :: slots[i] != slots[j])
  }

  class DCCQueue {
    var head: PendingSlot?
    var tail: PendingSlot?
    ghost var slots: seq<PendingSlot>    // from head to tail
    ghost var nodes: set<PendingSlot>    // the same
    ghost var entries: seq<Entry>        // what is written in them

    ghost predicate Valid()
      reads this, nodes
    {
      && Chain(head, slots, nodes)
      && tail == (if slots == [] then null else slots[|slots| - 1])
      && |entries| == |slots|
      && forall i | 0 <= i < |slots| :: slots[i].data == entries[i]
    }

    constructor ()
      ensures Valid() && slots == [] && nodes == {} && entries == []
    {
      head, tail, slots, nodes, entries := null, null, [], {}, [];
    }

    lemma Follow(i: nat)
      requires Valid()
      ensures |entries| == |slots| && head == At(slots, 0)
      ensures i < |slots| ==> slots[i] in nodes && slots[i].next == At(slots, i + 1) && slots[i].data == entries[i]
    {
    }

    method Count() returns (n: nat)
      requires Valid()
      ensures n == |slots|
    {
      n := 0;
      var p := head;
      while p != null
        invariant n <= |slots| && p == At(slots, n)
        decreases |slots| - n
      {
        n := n + 1;
        p := p.next;
      }
    }

    method AddQueue(p: PendingSlot)
      requires Valid() && p !in nodes
      modifies this, nodes`next, p`next
      ensures Valid() && nodes == old(nodes) + {p}
      ensures slots == old(slots) + [p] && entries == old(entries) + [p.data]
    {
      if tail != null {
        tail.next := p;
      } else {
        head := p;
      }
      tail := p;
      p.next := null;
      slots, nodes, entries := slots + [p], nodes + {p}, entries + [p.data];
    }

    method JumpQueue(p: PendingSlot)
      requires Valid() && p !in nodes
      modifies this, p`next
      ensures Valid() && nodes == old(nodes) + {p}
      ensures slots == [p] + old(slots) && entries == [p.data] + old(entries)
    {
      p.next := head;
      head := p;
      if tail == null {
        tail := p;
      }
      slots, nodes, entries := [p] + slots, nodes + {p}, [p.data] + entries;
      assert forall i | 0 < i < |slots| :: slots[i] == old(slots)[i - 1];
    }

    /** The middle of remove: `p` is found behind `previous`. */
    method Unlink(previous: PendingSlot?, p: PendingSlot, ghost at: nat)
      requires Valid() && at < |slots| && slots[at] == p && previous == (if at == 0 then null else slots[at - 1])
      modifies this, nodes`next
      ensures Valid() && nodes == old(nodes) - {p}
      ensures at < old(|slots|) && slots == Cut(old(slots), at)
      ensures at < old(|entries|) && entries == Without(old(entries), at) && p.data == old(entries)[at]
    {
      ghost var was, had, all := slots, entries, nodes;
      hide Cut, Without;
      if previous != null {
        previous.next := p.next;
      } else {
        head := p.next;
      }
      CutLinks(was, at, all, head);
      CutData(was, at, had);
      hide Chain;
      if p == tail {
        tail := previous;
      }
      slots, nodes, entries := Cut(was, at), nodes - {p}, Cut(had, at);
    }

    /** Once the link over `at` is made, the list without that slot is a chain. */
    lemma CutLinks(was: seq<PendingSlot>, at: nat, all: set<PendingSlot>, head: PendingSlot?)
      requires at < |was|
      requires head == if at == 0 then At(was, 1) else was[0]
      requires forall i | 0 <= i < |was| :: was[i] in all
      requires forall i {:trigger was[i].next} | 0 <= i < |was| && i != at && i != at - 1 ::
        was[i].next == At(was, i + 1)
      requires at > 0 ==> was[at - 1].next == At(was, at + 1)
      requires forall i, j | 0 <= i < j < |was| :: was[i] != was[j]
      ensures Chain(head, Cut(was, at), all - {was[at]})
    {
      hide Cut;
    }

    lemma CutData(was: seq<PendingSlot>, at: nat, had: seq<Entry>)
      requires at < |was| == |had| && forall i | 0 <= i < |was| :: was[i].data == had[i]
      ensures var now := Cut(was, at);
        && (forall i | 0 <= i < |now| :: now[i].data == Cut(had, at)[i])
        && (now != [] ==> now[|now| - 1] == if at == |was| - 1 then was[at - 1] else was[|was| - 1])
        && (now == [] <==> |was| == 1)
      ensures Cut(had, at) == Without(had, at)
    {
    }

    /** Walks from the head to the slot; `at` says where that is. */
    method Remove(premove: PendingSlot, ghost at: nat)
      requires Valid() && at < |slots| && slots[at] == premove
      modifies this, nodes`next
      ensures Valid() && nodes == old(nodes) - {premove}
      ensures at < old(|slots|) && slots == Cut(old(slots), at)
      ensures at < old(|entries|) && entries == Without(old(entries), at) && premove.data == old(entries)[at]
    {
      var previous: PendingSlot? := null;
      var p := head;
      ghost var i := 0;
      while p != premove
        invariant i <= at && p == slots[i] && previous == (if i == 0 then null else slots[i - 1])
        decreases at - i
      {
        previous, p := p, p.next;
        i := i + 1;
      }
      assert i == at;
      Unlink(previous, p, at);
    }

    /** A slot is written again where it stands. */
    method Rewrite(p: PendingSlot, packet: seq<byte>, repeats: nat, tag: nat, ghost i: nat)
      requires Valid() && i < |slots| && p == slots[i]
      modifies this`entries, p`data
      ensures Valid() && i < old(|entries|)
      ensures entries == old(entries)[i := old(entries)[i].(packet := packet, repeats := repeats, tag := tag)]
    {
      assert forall k | 0 <= k < |slots| && k != i :: slots[k] != p;
      hide Chain;
      p.data := p.data.(packet := packet, repeats := repeats, tag := tag);
      entries := entries[i := p.data];
    }
  }

  /** The statics of DCCQueue. */
  class Scheduler {
    const high: DCCQueue             // highPriorityQueue
    const low: DCCQueue              // lowPriorityQueue
    var recycleList: PendingSlot?
    var lastSent: nat                // lastSentPacketLocoId
    var created: nat
    ghost var recycled: seq<PendingSlot>
    ghost var spare: set<PendingSlot>
    var next: nat                    // requests so far, to number them
    ghost var log: seq<Sent>         // what the waveform generator was given

    /** All slots ever made are in one of three lists without common members; `out` more are in hand. */
    ghost predicate Owning(out: nat)
      reads this, high, low, high.nodes, low.nodes, spare
    {
      && high != low && high.Valid() && low.Valid() && Chain(recycleList, recycled, spare)
      && high.nodes !! low.nodes && high.nodes !! spare && low.nodes !! spare
      && |high.slots| + |low.slots| + |recycled| + out == created
    }

    ghost predicate Valid()
      reads this, high, low, high.nodes, low.nodes, spare
    {
      Owning(0)
    }

    ghost function Abs(): Queues
      reads this, high, low
    {
      Queues(high.entries, low.entries, lastSent, next, log)
    }

    constructor ()
      ensures Valid() && Abs() == EMPTY && created == 0
      ensures fresh(high) && fresh(low)
    {
      high := new DCCQueue();
      low := new DCCQueue();
      recycleList, lastSent, created, recycled, spare, next, log := null, 0, 0, [], {}, 0, [];
    }

    /** All slots in the lists. */
    ghost function Slots(): set<PendingSlot>
      reads this, high, low
    {
      high.nodes + low.nodes + spare
    }

    /** The slot is in none of the three lists. */
    ghost predicate InHand(p: PendingSlot)
      reads this, high, low
    {
      p !in high.nodes && p !in low.nodes && p !in spare
    }

    method Recycle(p: PendingSlot)
      requires Owning(1) && InHand(p)
      modifies this`recycleList, this`recycled, this`spare, p`next
      ensures Valid() && spare == old(spare) + {p}
      ensures Slots() == old(Slots()) + {p}
    {
      hide DCCQueue.Valid;
      p.next := recycleList;
      recycleList := p;
      recycled, spare := [p] + recycled, spare + {p};
      assert forall i | 0 < i < |recycled| :: recycled[i] == old(recycled)[i - 1];
    }

    /** The alarm of getSlot when it has to make a slot: it never goes off. */
    method LeakCheck() returns (leak: bool)
      requires Valid() && recycleList == null
      ensures !leak
    {
      var q1 := high.Count();
      var q2 := low.Count();
      leak := q1 + q2 != created;
    }

    /** The part of getSlot that takes a slot from the recycle list or makes one. */
    method TakeSlot() returns (p: PendingSlot)
      requires Valid()
      modifies this`recycleList, this`recycled, this`spare, this`created
      ensures Owning(1) && InHand(p) && (fresh(p) || p in old(spare))
      ensures Slots() == old(Slots()) - {p}
    {
      hide DCCQueue.Valid;
      if recycleList != null {
        p := recycleList;
        recycleList := p.next;
        spare := spare - {p};
        recycled := recycled[1..];
      } else {
        var leak := LeakCheck();
        p := new PendingSlot(Entry(NORMAL, [], 0, 0, 0));
        created := created + 1;
      }
    }

    method GetSlot(kind: Kind, packet: seq<byte>, repeats: nat, loco: nat) returns (p: PendingSlot)
      requires Valid()
      modifies this`recycleList, this`recycled, this`spare, this`created, spare
      ensures Owning(1) && InHand(p) && (fresh(p) || p in old(spare))
      ensures p.data == Entry(kind, packet, repeats, loco, next) && Abs() == old(Abs())
      ensures Slots() == old(Slots()) - {p}
    {
      hide DCCQueue.Valid, Chain;
      p := TakeSlot();
      p.next, p.data := null, Entry(kind, packet, repeats, loco, next);
    }
 
    method JoinHigh(p: PendingSlot)
      requires Owning(1) && InHand(p)
      modifies high, high.nodes`next, p`next
      ensures Valid() && Abs() == old(Abs()).(high := old(Abs()).high + [p.data])
      ensures Slots() == old(Slots()) + {p}
    {
      hide Chain;
      high.AddQueue(p);
    }

    method JoinLow(p: PendingSlot)
      requires Owning(1) && InHand(p)
      modifies low, low.nodes`next, p`next
      ensures Valid() && Abs() == old(Abs()).(low := old(Abs()).low + [p.data])
      ensures Slots() == old(Slots()) + {p}
    {
      hide Chain;
      low.AddQueue(p);
    }

    method JumpHigh(p: PendingSlot)
      requires Owning(1) && InHand(p)
      modifies high, p`next
      ensures Valid() && Abs() == old(Abs()).(high := [p.data] + old(Abs()).high)
      ensures Slots() == old(Slots()) + {p}
    {
      hide Chain;
      high.JumpQueue(p);
    }

    method NewSpeed(packet: seq<byte>, repeats: nat, loco: nat)
      requires Valid()
      modifies this, high, high.nodes, spare
      ensures Valid() && var q := old(Abs());
        Abs() == q.(high := q.high + [Entry(SPEED, packet, repeats, loco, q.next)], next := q.next + 1)
      ensures fresh(Slots() - old(Slots()))
    {
      hide Chain, DCCQueue.Valid;
      var p := GetSlot(SPEED, packet, repeats, loco);
      JoinHigh(p);
      next := next + 1;
    }

    method NewLow(kind: Kind, packet: seq<byte>, repeats: nat, loco: nat)
      requires Valid()
      modifies this, low, low.nodes, spare
      ensures Valid() && var q := old(Abs());
        Abs() == q.(low := q.low + [Entry(kind, packet, repeats, loco, q.next)], next := q.next + 1)
      ensures fresh(Slots() - old(Slots()))
    {
      hide Chain, DCCQueue.Valid;
      var p := GetSlot(kind, packet, repeats, loco);
      JoinLow(p);
      next := next + 1;
    }

    /** scheduleDCCPacket */
    method SchedulePacket(packet: seq<byte>, repeats: nat, loco: nat)
      requires Valid()
      modifies this, low, low.nodes, spare
      ensures Valid() && Abs() == PacketQueue.SchedulePacket(old(Abs()), packet, repeats, loco)
      ensures fresh(Slots() - old(Slots()))
    {
      hide Chain, DCCQueue.Valid;
      NewLow(NORMAL, packet, repeats, loco);
    }

    /** scheduleAccOnOffPacket */
    method ScheduleAccessory(packet: seq<byte>, repeats: nat, delay: int)
      requires Valid()
      modifies this, low, low.nodes, spare
      ensures Valid() && Abs() == PacketQueue.ScheduleAccessory(old(Abs()), packet, repeats, delay)
      ensures fresh(Slots() - old(Slots()))
    {
      hide Chain, DCCQueue.Valid;
      var p := GetSlot(ACC_ON, packet, repeats, 0);
      p.data := p.data.(word := delay % 0x1_0000);
      JoinLow(p);
      next := next + 1;
    }

    /** scheduleDCCSpeedPacket */
    method ScheduleSpeed(packet: seq<byte>, repeats: nat, loco: nat)
      requires Valid()
      modifies this, high, high.nodes, spare
      ensures Valid() && Abs() == PacketQueue.ScheduleSpeed(old(Abs()), packet, repeats, loco)
      ensures fresh(Slots() - old(Slots()))
    {
      hide Chain, DCCQueue.Valid;
      var p := high.head;
      ghost var i := 0;
      high.Follow(0);
      while p != null
        invariant Valid() && Abs() == old(Abs()) && high.nodes == old(high.nodes) && spare == old(spare)
        invariant i <= |high.slots| == |high.entries| && p == At(high.slots, i)
        invariant forall k | 0 <= k < i :: high.entries[k].LocoId() != loco
        decreases |high.slots| - i
      {
        high.Follow(i);
        if p.data.LocoId() == loco {
          assert FindLoco(high.entries, loco) == i;
          high.Rewrite(p, packet, repeats, next, i);
          next := next + 1;
          return;
        }
        p := p.next;
        i := i + 1;
      }
      assert FindLoco(high.entries, loco) == |high.entries|;
      NewSpeed(packet, repeats, loco);
    }

    /** scheduleDCCFunctionPacket */
    method ScheduleFunction(packet: seq<byte>, loco: nat, group: nat)
      requires Valid()
      modifies this, low, low.nodes, spare
      ensures Valid() && Abs() == PacketQueue.ScheduleFunction(old(Abs()), packet, loco, group)
      ensures fresh(Slots() - old(Slots()))
    {
      hide Chain, DCCQueue.Valid;
      if !(1 <= group <= 5) { return; }
      var p := low.head;
      ghost var i := 0;
      low.Follow(0);
      while p != null
        invariant Valid() && Abs() == old(Abs()) && low.nodes == old(low.nodes) && spare == old(spare)
        invariant i <= |low.slots| == |low.entries| && p == At(low.slots, i)
        invariant forall k | 0 <= k < i :: !(low.entries[k].LocoId() == loco && low.entries[k].kind == FUNCTION(group))
        decreases |low.slots| - i
      {
        low.Follow(i);
        if p.data.LocoId() == loco && p.data.kind == FUNCTION(group) {
          assert FindFunction(low.entries, loco, group) == i;
          low.Rewrite(p, packet, 0, next, i);
          next := next + 1;
          return;
        }
        p := p.next;
        i := i + 1;
      }
      assert FindFunction(low.entries, loco, group) == |low.entries|;
      NewLow(FUNCTION(group), packet, 0, loco);
    }
 
    /** One slot of the high queue goes to the recycle list. */
    method Discard(p: PendingSlot, ghost k: nat)
      requires Valid() && k < |high.slots| && p == high.slots[k]
      modifies this`recycleList, this`recycled, this`spare, high, high.nodes`next
      ensures Valid() && k < old(|high.entries|) && Abs() == old(Abs()).(high := Without(old(Abs()).high, k))
      ensures k < old(|high.slots|) && high.slots == Cut(old(high.slots), k)
      ensures high.nodes <= old(high.nodes) && spare <= old(spare) + old(high.nodes)
      ensures Slots() == old(Slots())
    {
      hide Chain, DCCQueue.Valid, Cut, Without;
      high.Follow(k);
      high.Remove(p, k);
      Recycle(p);
    }

    /** The loop of scheduleEstopPacket: every entry that the stop concerns goes to the recycle list. */
    method Purge(loco: nat)
      requires Valid()
      modifies this`recycleList, this`recycled, this`spare, high, high.nodes`next
      ensures Valid() && Abs() == old(Abs()).(high := Survivors(old(Abs()).high, loco))
      ensures high.nodes <= old(high.nodes) && spare <= old(spare) + old(high.nodes)
      ensures Slots() == old(Slots())
    {
      hide Chain, DCCQueue.Valid, Stopped, Cut, Without, Purged;
      var p := high.head;
      ghost var kept, all := 0, high.entries;
      high.Follow(0);
      NothingPurged(all, loco);
      while p != null
        invariant Valid() && kept <= |high.slots| == |high.entries| && p == At(high.slots, kept)
        invariant Abs() == old(Abs()).(high := high.entries)
        invariant high.nodes <= old(high.nodes) && spare <= old(spare) + old(high.nodes) && Slots() == old(Slots())
        invariant Purged(all, high.entries, kept, loco)
        decreases |high.slots| - kept
      {
        high.Follow(kept);
        PurgesOne(all, high.entries, kept, loco);
        var pNext := p.next;
        if Stopped(p.data, loco) {
          Discard(p, kept);
          high.Follow(kept);
        } else {
          kept := kept + 1;
        }
        p := pNext;
      }
      AllPurged(all, high.entries, loco);
    }

    /** scheduleEstopPacket */
    method ScheduleEstop(packet: seq<byte>, repeats: nat, loco: nat)
      requires Valid()
      modifies this, high, high.nodes, spare
      ensures Valid() && Abs() == PacketQueue.ScheduleEstop(old(Abs()), packet, repeats, loco)
      ensures fresh(Slots() - old(Slots()))
    {
      hide Chain, DCCQueue.Valid;
      Purge(loco);
      var p := GetSlot(SPEED, packet, repeats, 0);
      JumpHigh(p);
      next := next + 1;
    }

    /** What scheduleNextInternal gives to the waveform generator, and to whom. */
    method Transmit(p: PendingSlot, now: nat)
      requires Valid()
      modifies this`lastSent, this`log
      ensures Valid() && Abs() == old(Abs()).(last := p.data.LocoId(),
        log := Logged(old(log), Transmission(p.data, now)))
    {
      if p.data.LocoId() != 0 {
        log := Logged(log, Sent(p.data.packet, 0, p.data.LocoId(), p.data.tag, p.data.kind == ACC_OFF, now));
        lastSent := p.data.LocoId();
      } else {
        log := Logged(log, Sent(p.data.packet, p.data.repeats, 0, p.data.tag, p.data.kind == ACC_OFF, now));
        lastSent := 0;
      }
    }

    /** The end of scheduleNextInternal: a slot in hand becomes its own gate-off request, or is recycled. */
    method Retire(p: PendingSlot, now: nat)
      requires Owning(1) && InHand(p) && !Stays(p.data)
      modifies this`recycleList, this`recycled, this`spare, high, p
      ensures Valid() && Abs() == old(Abs()).(high := Jumped(old(p.data), now) + old(Abs()).high)
      ensures Slots() == old(Slots()) + {p}
    {
      hide Chain, DCCQueue.Valid;
      if p.data.kind == ACC_ON {
        p.data := OffEntry(p.data, now);
        JumpHigh(p);
      } else {
        Recycle(p);
      }
    }

    /** scheduleNextInternal on the high queue. */
    method SendFromHigh(now: nat) returns (sent: bool)
      requires Valid()
      modifies this, high, high.nodes
      ensures Valid() && var q := old(Abs());
        var i := FindSendable(q.high, now, q.last);
        sent == (i < |q.high|) && Abs() == if sent then SendHigh(q, i, now) else q
      ensures !sent ==> high.nodes == old(high.nodes) && spare == old(spare)
      ensures Slots() == old(Slots())
    {
      hide Chain, DCCQueue.Valid, Sendable;
      var p := high.head;
      ghost var i := 0;
      high.Follow(0);
      while p != null
        invariant Valid() && Abs() == old(Abs()) && high.nodes == old(high.nodes) && spare == old(spare)
        invariant i <= |high.slots| == |high.entries| && p == At(high.slots, i)
        invariant forall k | 0 <= k < i :: !Sendable(high.entries[k], now, lastSent)
        decreases |high.slots| - i
      {
        high.Follow(i);
        if Sendable(p.data, now, lastSent) {
          assert FindSendable(high.entries, now, lastSent) == i;
          DrainHigh(p, i, now);
          return true;
        }
        p := p.next;
        i := i + 1;
      }
      assert FindSendable(high.entries, now, lastSent) == |high.entries|;
      return false;
    }

    /** Sends a slot of the high queue, and leaves it there or removes it. */
    method DrainHigh(p: PendingSlot, ghost i: nat, now: nat)
      requires Valid() && i < |high.slots| && p == high.slots[i]
      modifies this, high, high.nodes
      ensures Valid() && i < |old(Abs()).high| && Abs() == SendHigh(old(Abs()), i, now)
      ensures Slots() == old(Slots())
    {
      hide Chain, DCCQueue.Valid, Cut, Without, Logged, Transmission, OffEntry;
      high.Follow(i);
      Transmit(p, now);
      if p.data.LocoId() != 0 && p.data.repeats > 0 {
        high.Rewrite(p, p.data.packet, p.data.repeats - 1, p.data.tag, i);
      } else {
        high.Remove(p, i);
        Retire(p, now);
      }
    }

    /** scheduleNextInternal on the low queue. */
    method SendFromLow(now: nat) returns (sent: bool)
      requires Valid()
      modifies this, high, low, low.nodes
      ensures Valid() && var q := old(Abs());
        var i := FindSendable(q.low, now, q.last);
        sent == (i < |q.low|) && Abs() == if sent then SendLow(q, i, now) else q
      ensures Slots() == old(Slots())
    {
      hide Chain, DCCQueue.Valid, Sendable;
      var p := low.head;
      ghost var i := 0;
      low.Follow(0);
      while p != null
        invariant Valid() && Abs() == old(Abs()) && low.nodes == old(low.nodes) && Slots() == old(Slots())
        invariant i <= |low.slots| == |low.entries| && p == At(low.slots, i)
        invariant forall k | 0 <= k < i :: !Sendable(low.entries[k], now, lastSent)
        decreases |low.slots| - i
      {
        low.Follow(i);
        if Sendable(p.data, now, lastSent) {
          assert FindSendable(low.entries, now, lastSent) == i;
          DrainLow(p, i, now);
          return true;
        }
        p := p.next;
        i := i + 1;
      }
      assert FindSendable(low.entries, now, lastSent) == |low.entries|;
      return false;
    }

    method DrainLow(p: PendingSlot, ghost i: nat, now: nat)
      requires Valid() && i < |low.slots| && p == low.slots[i]
      modifies this, high, low, low.nodes
      ensures Valid() && i < |old(Abs()).low| && Abs() == SendLow(old(Abs()), i, now)
      ensures Slots() == old(Slots())
    {
      hide Chain, DCCQueue.Valid, Cut, Without, Logged, Transmission, OffEntry;
      low.Follow(i);
      Transmit(p, now);
      if p.data.LocoId() != 0 && p.data.repeats > 0 {
        low.Rewrite(p, p.data.packet, p.data.repeats - 1, p.data.tag, i);
      } else {
        low.Remove(p, i);
        Retire(p, now);
      }
    }

    /** DCCQueue::scheduleNext */
    method ScheduleNext(force: bool, now: nat) returns (sent: bool)
      requires Valid()
      modifies this, high, high.nodes, low, low.nodes
      ensures Valid() && Abs() == PacketQueue.ScheduleNext(old(Abs()), force, now)
      ensures Slots() == old(Slots())
    {
      hide Chain, DCCQueue.Valid, SendHigh, SendLow;
      sent := SendFromHigh(now);
      if sent { return; }
      sent := SendFromLow(now);
      if sent { return; }
      if force {
        log := log + [Sent(IDLE, 0, 0, -1, false, now)];
        lastSent := 0;
        sent := true;
      }
    }

    method Apply(op: Op)
      requires Valid()
      modifies this, high, low, Slots()
      ensures Valid() && Abs() == PacketQueue.Apply(old(Abs()), op) && fresh(Slots() - old(Slots()))
    {
      hide Chain, DCCQueue.Valid, PacketQueue.SchedulePacket, PacketQueue.ScheduleSpeed, PacketQueue.ScheduleFunction,
        PacketQueue.ScheduleEstop, PacketQueue.ScheduleAccessory, PacketQueue.ScheduleNext;
      match op
      case Packet(packet, repeats, loco) => SchedulePacket(packet, repeats, loco);
      case Speed(packet, repeats, loco) => ScheduleSpeed(packet, repeats, loco);
      case Function(packet, loco, group) => ScheduleFunction(packet, loco, group);
      case Estop(packet, repeats, loco) => ScheduleEstop(packet, repeats, loco);
      case Accessory(packet, repeats, delay) => ScheduleAccessory(packet, repeats, delay);
      case Next(force, now) => var sent := ScheduleNext(force, now);
    }

    /** Every run on the linked slots is the run of PacketQueue, and no slot is ever lost or shared. */
    method Operate(ops: seq<Op>)
      requires Valid()
      modifies this, high, low, Slots()
      ensures Valid() && Abs() == Run(old(Abs()), ops)
    {
      hide Chain, DCCQueue.Valid, PacketQueue.Apply, Owning;
      var k := 0;
      while k < |ops|
        invariant k <= |ops| && Valid() && Abs() == Run(old(Abs()), ops[..k])
        invariant fresh(Slots() - old(Slots()))
      {
        assert ops[..k + 1][..k] == ops[..k];
        Apply(ops[k]);
        k := k + 1;
      }
      assert ops[..k] == ops;
    }
  }

  /** `now` is `all` with the first entries up to `kept` already purged. */
  ghost predicate Purged(all: seq<Entry>, now: seq<Entry>, kept: nat, loco: nat) {
    kept <= |now| && Survivors(all, loco) == now[..kept] + Survivors(now[kept..], loco)
  }

  lemma PurgesOne(all: seq<Entry>, now: seq<Entry>, k: nat, loco: nat)
    requires k < |now| && Purged(all, now, k, loco)
    ensures if Stopped(now[k], loco) then Purged(all, Without(now, k), k, loco) else Purged(all, now, k + 1, loco)
  {
    hide Stopped;
    assert now[k..][1..] == now[k + 1..];
    if Stopped(now[k], loco) {
      assert Without(now, k)[..k] == now[..k] && Without(now, k)[k..] == now[k + 1..];
    } else {
      assert now[..k] + [now[k]] == now[..k + 1];
    }
  }

  lemma NothingPurged(all: seq<Entry>, loco: nat)
    ensures Purged(all, all, 0, loco)
  {
    assert all[0..] == all;
  }

  lemma AllPurged(all: seq<Entry>, now: seq<Entry>, loco: nat)
    requires Purged(all, now, |now|, loco)
    ensures now == Survivors(all, loco)
  {
    assert now[..|now|] == now;
  }
}
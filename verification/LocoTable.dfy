/** The table of locos in LocoSlot.cpp: an intrusive list of the active slots, a list of recycled
    ones, and the consist pointers that are threaded through the active slots. */
module LocoTable {
  import opened Bytes
  import opened Lists
  import LocoFunctions

  /** The fields of LocoSlot that lists, consists and throttles use. */
  class LocoSlot {
    var next: LocoSlot?
    var consistLead: LocoSlot?
    var consistNext: LocoSlot?
    var loco: uint16
    var targetSpeed: byte
    var speedCode: byte
    var consistReverse: bool
    var momentumBase: nat
    var functions: LocoFunctions.Functions    // the function map and the group flags
    ghost var consist: seq<LocoSlot>   // the consist this slot is in, lead first; alone if in none
    ghost var place: nat               // where it is in there

    constructor ()
    {
      next, consistLead, consistNext, loco := null, null, null, 0;
      targetSpeed, speedCode, consistReverse, consist, place := 128, 128, false, [], 0;
      momentumBase, functions := 0, LocoFunctions.NONE;
    }

    predicate IsConsistLead()
      reads `consistLead, `consistNext
    {
      consistNext != null && consistLead == null
    }

    predicate IsConsistFollower()
      reads `consistLead
    {
      consistLead != null
    }

    /** The consist pointers say where this slot is in its consist. */
    ghost predicate Placed()
      reads `consistLead, `consistNext, `consist, `place
    {
      && place < |consist| && consist[place] == this
      && consistLead == (if place == 0 then null else consist[0])
      && consistNext == At(consist, place + 1)
    }

    /** The members of the consist agree about it. */
    ghost predicate Agreed()
      reads `consist, consist`consist, consist`place
    {
      forall k {:trigger consist[k].place} | 0 <= k < |consist| ::
        consist[k].consist == consist && consist[k].place == k
    }

    ghost predicate Solo()
      reads `consist, `place
    {
      consist == [this] && place == 0
    }

    /** As LocoSlot::prepare leaves it. */
    ghost predicate IsNew()
      reads this
    {
      && Solo() && !consistReverse && speedCode == 128 && targetSpeed == 128 && momentumBase == 0
      && functions == LocoFunctions.NONE
    }
  }

  ghost function At(slots: seq<LocoSlot>, k: nat): LocoSlot? {
    if k < |slots| then slots[k] else null
  }

  /** `head` is null or the first of distinct slots, all the `nodes`, each linked to the next, the last to null. */
  ghost predicate Chain(head: LocoSlot?, slots: seq<LocoSlot>, nodes: set<LocoSlot>)
    reads nodes`next
  {
    && head == At(slots, 0)
    && (forall s | s in nodes :: s in slots)
    && (forall i | 0 <= i < |slots| :: slots[i] in nodes)
    && (forall i {:trigger slots[i].next} | 0 <= i < |slots| :: slots[i].next == At(slots, i + 1))
    && (forall i, j | 0 <= i < j < |slots| :: slots[i] != slots[j])
  }

  ghost predicate Inside(s: LocoSlot, nodes: set<LocoSlot>)
    reads s`consist
  {
    forall x | x in s.consist :: x in nodes
  }

  /** The consists are disjoint chains of slots, and no consist pointer leaves them. */
  ghost predicate Grouped(nodes: set<LocoSlot>)
    reads nodes`consistLead, nodes`consistNext, nodes`consist, nodes`place
  {
    && (forall s | s in nodes :: Inside(s, nodes))
    && (forall s | s in nodes :: s.Placed() && s.Agreed())
  }

  ghost predicate Distinct(nodes: set<LocoSlot>)
    reads nodes`loco
  {
    && (forall s | s in nodes :: s.loco != 0)
    && (forall s, t | s in nodes && t in nodes && s.loco == t.loco :: s == t)
  }

  /** The statics of LocoSlot and DCC::nextLocoReminder. */
  class Table {
    const maxLocos: nat                // MAX_LOCOS
    var firstSlot: LocoSlot?
    var recycler: LocoSlot?
    var slotCount: nat
    var chainModified: bool
    var nextLocoReminder: LocoSlot?
    ghost var active: seq<LocoSlot>
    ghost var nodes: set<LocoSlot>
    ghost var recycled: seq<LocoSlot>
    ghost var spare: set<LocoSlot>

    /** Two lists without common slots that together hold every slot made. */
    ghost predicate Listed()
      reads this, nodes, spare
    {
      && Chain(firstSlot, active, nodes) && Chain(recycler, recycled, spare)
      && nodes !! spare
      && |active| + |recycled| == slotCount <= maxLocos
    }

    ghost predicate Valid()
      reads this, nodes, spare
    {
      && Listed()
      && Distinct(nodes)
      && Grouped(nodes)
      && (nextLocoReminder == null || nextLocoReminder in nodes)
    }

    constructor (maxLocos: nat)
      ensures Valid() && this.maxLocos == maxLocos && nodes == {} && spare == {}
    {
      this.maxLocos := maxLocos;
      firstSlot, recycler, slotCount, chainModified, nextLocoReminder := null, null, 0, false, null;
      active, nodes, recycled, spare := [], {}, [], {};
    }

    lemma Follow(i: nat)
      requires Chain(firstSlot, active, nodes)
      ensures firstSlot == At(active, 0)
      ensures i < |active| ==> active[i] in nodes && active[i].next == At(active, i + 1)
    {
    }

    /** The search of getSlot. */
    method Find(locoId: nat) returns (slot: LocoSlot?)
      requires Valid()
      ensures slot != null ==> slot in nodes && slot.loco == locoId
      ensures slot == null ==> forall s | s in nodes :: s.loco != locoId
    {
      slot := firstSlot;
      ghost var i := 0;
      while slot != null
        invariant i <= |active| && slot == At(active, i)
        invariant forall k | 0 <= k < i :: active[k].loco != locoId
        decreases |active| - i
      {
        Follow(i);
        if slot.loco == locoId { return; }
        slot := slot.next;
        i := i + 1;
      }
    }

    /** The part of getSlot that takes a recycled slot or makes one; null if the table is full. */
    method TakeSlot() returns (slot: LocoSlot?)
      requires Valid()
      modifies this`recycler, this`slotCount, this`recycled, this`spare
      ensures Chain(firstSlot, active, nodes) && Chain(recycler, recycled, spare) && spare <= old(spare)
      ensures nodes !! spare && slotCount <= maxLocos
      ensures slot == null <==> |old(active)| == maxLocos
      ensures slot == null ==> Valid() && spare == old(spare) && recycled == old(recycled)
      ensures slot != null ==> slot !in nodes && slot !in spare && (fresh(slot) || slot in old(spare))
      ensures slot != null ==> |active| + |recycled| + 1 == slotCount
    {
      hide Distinct, Grouped;
      if recycler != null {
        slot := recycler;
        recycler := recycler.next;
        spare := spare - {slot};
        recycled := recycled[1..];
      } else if slotCount >= maxLocos {
        return null;
      } else {
        slot := new LocoSlot();
        slotCount := slotCount + 1;
      }
    }

    /** Add to start of list */
    method Enlist(slot: LocoSlot)
      requires Chain(firstSlot, active, nodes) && slot !in nodes
      modifies this`firstSlot, this`active, this`nodes, this`chainModified, slot`next
      ensures Chain(firstSlot, active, nodes) && active == [slot] + old(active) && nodes == old(nodes) + {slot}
      ensures chainModified
    {
      slot.next := firstSlot;
      firstSlot := slot;
      chainModified := true;
      active, nodes := [slot] + active, nodes + {slot};
      assert forall i | 0 < i < |active| :: active[i] == old(active)[i - 1];
    }

    /** LocoSlot::prepare, of a slot that is in neither list. */
    method Prepare(slot: LocoSlot, locoId: uint16)
      requires Chain(firstSlot, active, nodes) && slot !in nodes
      modifies this`firstSlot, this`active, this`nodes, this`chainModified, slot
      ensures Chain(firstSlot, active, nodes) && active == [slot] + old(active) && nodes == old(nodes) + {slot}
      ensures slot.loco == locoId && slot.Placed() && slot.IsNew() && chainModified
    {
      hide Chain;
      slot.loco, slot.speedCode, slot.targetSpeed := locoId, 128, 128;
      slot.functions, slot.momentumBase := LocoFunctions.NONE, 0;
      slot.consistLead, slot.consistNext, slot.consistReverse := null, null, false;
      slot.consist, slot.place := [slot], 0;
      Enlist(slot);
    }

    /** LocoSlot::getSlot(locoId, false) */
    method Lookup(locoId: nat) returns (slot: LocoSlot?)
      requires Valid()
      ensures slot != null ==> slot in nodes && slot.loco == locoId
      ensures slot == null <==> forall s | s in nodes :: s.loco != locoId
    {
      hide Chain, Grouped;
      if locoId == 0 { return null; }
      slot := Find(locoId);
    }

    /** LocoSlot::getSlot: a slot of that loco, or null if the id is 0, or is unknown and there is no room. */
    method GetSlot(locoId: uint16, autoCreate: bool) returns (slot: LocoSlot?)
      requires Valid()
      modifies this`firstSlot, this`recycler, this`slotCount, this`chainModified,
        this`active, this`nodes, this`recycled, this`spare, spare
      ensures Valid() && nodes == (if slot == null then old(nodes) else old(nodes) + {slot})
      ensures spare <= old(spare) && (slot == null ==> spare == old(spare) && active == old(active))
      ensures slot != null ==>
        slot in nodes && slot.loco == locoId && (slot in old(nodes) || slot in old(spare) || fresh(slot))
      ensures slot != null && slot !in old(nodes) ==>
        autoCreate && slot.IsNew() && forall s | s in old(nodes) :: s.loco != locoId
      ensures slot == null <==>
        || locoId == 0
        || ((forall s | s in old(nodes) :: s.loco != locoId) && (!autoCreate || |old(active)| == maxLocos))
    {
      hide Chain, Distinct, Grouped, LocoSlot.Placed, LocoSlot.Agreed;
      if locoId == 0 { return null; }
      slot := Find(locoId);
      if slot != null || !autoCreate { return; }
      slot := Create(locoId);
    }

    /** The rest of getSlot, for a loco that is not in the table. */
    method Create(locoId: uint16) returns (slot: LocoSlot?)
      requires Valid() && locoId != 0 && forall s | s in nodes :: s.loco != locoId
      modifies this`firstSlot, this`recycler, this`slotCount, this`chainModified,
        this`active, this`nodes, this`recycled, this`spare, spare
      ensures Valid() && nodes == (if slot == null then old(nodes) else old(nodes) + {slot})
      ensures spare <= old(spare) && (slot == null ==> spare == old(spare) && active == old(active))
      ensures slot == null <==> |old(active)| == maxLocos
      ensures slot != null ==> slot !in old(nodes) && slot.loco == locoId && (slot in old(spare) || fresh(slot))
      ensures slot != null ==> slot.IsNew()
    {
      hide Chain, Distinct, Grouped, LocoSlot.Placed, LocoSlot.Agreed;
      ghost var was := nodes;
      slot := TakeSlot();
      if slot == null { return; }
      Prepare(slot, locoId);
      NewIsDistinct(was, slot);
      NewIsGrouped(was, slot);
    }

    /** The search of forget for the slot before `slot`; null if that is the first. */
    method FindPrevious(slot: LocoSlot, ghost at: nat) returns (prev: LocoSlot?)
      requires Valid() && at < |active| && active[at] == slot
      ensures prev == if at == 0 then null else active[at - 1]
    {
      hide Grouped, Distinct;
      if firstSlot == slot { return null; }
      prev := firstSlot;
      ghost var i := 0;
      Follow(0);
      while prev != null && prev.next != slot
        invariant i < at && prev == active[i]
        decreases at - i
      {
        Follow(i);
        i := i + 1;
        Follow(i);
        prev := prev.next;
      }
      Follow(i);
    }

    /** The list part of forget. */
    method Delist(slot: LocoSlot, ghost at: nat)
      requires Valid() && at < |active| && active[at] == slot
      modifies this`firstSlot, this`active, this`nodes, nodes`next
      ensures Chain(firstSlot, active, nodes) && active == Cut(old(active), at) && nodes == old(nodes) - {slot}
    {
      hide Grouped, Distinct;
      ghost var was, all := active, nodes;
      var prev := FindPrevious(slot, at);
      if prev == null {
        firstSlot := slot.next;
      } else {
        prev.next := slot.next;
      }
      active, nodes := Cut(was, at), nodes - {slot};
      hide Chain, Cut;
      CutLinks(was, at, all, firstSlot);
    }

    /** LocoSlot::forget, of a slot that is in no consist and is not the one to be reminded next. */
    method Forget(slot: LocoSlot)
      requires Valid() && slot in nodes && slot.Solo() && nextLocoReminder != slot
      modifies this, nodes`next
      ensures Valid() && nodes == old(nodes) - {slot} && spare == old(spare) + {slot}
      ensures nextLocoReminder == old(nextLocoReminder)
      ensures forall s | s in nodes :: s.loco != slot.loco
    {
      hide Chain, Cut, Grouped, Distinct;
      var at := IndexOf(slot);
      ForgottenIsDistinct(nodes, slot);
      ForgottenIsGrouped(nodes, slot);
      Delist(slot, at);
      Shelve(slot);
    }

    ghost method IndexOf(slot: LocoSlot) returns (at: nat)
      requires Valid() && slot in nodes
      ensures at < |active| && active[at] == slot
    {
      hide Grouped, Distinct;
      at :| at < |active| && active[at] == slot;
    }

    /** Add to recycler */
    method Shelve(slot: LocoSlot)
      requires Chain(recycler, recycled, spare) && slot !in spare
      modifies this`recycler, this`recycled, this`spare, this`chainModified, slot`next
      ensures Chain(recycler, recycled, spare) && recycled == [slot] + old(recycled) && spare == old(spare) + {slot}
    {
      slot.next := recycler;
      recycler := slot;
      chainModified := true;
      recycled, spare := [slot] + recycled, spare + {slot};
      assert forall i | 0 < i < |recycled| :: recycled[i] == old(recycled)[i - 1];
    }

    /** LocoSlot::forgetAll with DCC::forgetAllLocos: both lists are given back to the heap. */
    method ForgetAll()
      requires Valid()
      modifies this
      ensures Valid() && nodes == {} && spare == {} && slotCount == 0 && nextLocoReminder == null
    {
      firstSlot, recycler, chainModified, slotCount, nextLocoReminder := null, null, true, 0, null;
      active, nodes, recycled, spare := [], {}, [], {};
    }
  }

  lemma CutLinks(was: seq<LocoSlot>, at: nat, all: set<LocoSlot>, head: LocoSlot?)
    requires at < |was|
    requires head == if at == 0 then At(was, 1) else was[0]
    requires (forall i | 0 <= i < |was| :: was[i] in all) && (forall s | s in all :: s in was)
    requires forall i {:trigger was[i].next} | 0 <= i < |was| && i != at && i != at - 1 :: was[i].next == At(was, i + 1)
    requires at > 0 ==> was[at - 1].next == At(was, at + 1)
    requires forall i, j | 0 <= i < j < |was| :: was[i] != was[j]
    ensures Chain(head, Cut(was, at), all - {was[at]})
  {
    hide Cut;
    forall s | s in all && s != was[at]
      ensures s in Cut(was, at)
    {
      var i :| 0 <= i < |was| && was[i] == s;
      assert Cut(was, at)[if i < at then i else i - 1] == s;
    }
  }

  lemma ForgottenIsDistinct(nodes: set<LocoSlot>, slot: LocoSlot)
    requires Distinct(nodes) && slot in nodes
    ensures Distinct(nodes - {slot}) && forall s | s in nodes - {slot} :: s.loco != slot.loco
  {
  }

  /** A slot that is in no consist is in no other slot's either. */
  lemma ForgottenIsGrouped(nodes: set<LocoSlot>, slot: LocoSlot)
    requires Grouped(nodes) && slot in nodes && slot.Solo()
    ensures Grouped(nodes - {slot})
  {
    hide LocoSlot.Placed, LocoSlot.Agreed;
    forall s | s in nodes - {slot}
      ensures Inside(s, nodes - {slot})
    {
      NotWithSolo(s, slot);
    }
  }

  lemma NotWithSolo(s: LocoSlot, slot: LocoSlot)
    requires s.Placed() && s.Agreed() && s != slot && slot.Solo()
    ensures slot !in s.consist
  {
  }

  lemma NewIsDistinct(nodes: set<LocoSlot>, slot: LocoSlot)
    requires Distinct(nodes) && slot.loco != 0 && forall s | s in nodes :: s.loco != slot.loco
    ensures Distinct(nodes + {slot})
  {
  }

  lemma NewIsGrouped(nodes: set<LocoSlot>, slot: LocoSlot)
    requires Grouped(nodes) && slot.Placed() && slot.Solo()
    ensures Grouped(nodes + {slot})
  {
    hide LocoSlot.Placed;
    assert slot.Agreed();
    hide LocoSlot.Agreed;
  }
}

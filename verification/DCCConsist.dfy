/** DCCConsist.cpp: consists are made, extended and dissolved by relinking the slots of the table. */
module DCCConsist {
  import opened Bytes
  import opened LocoTable

  const HIGHEST_ID: int := 10239

  function Abs(n: int): nat {
    if n < 0 then -n else n
  }

  lemma PlaceOf(s: LocoSlot)
    requires s.Placed()
    ensures s.place < |s.consist| && s.consist[s.place] == s
    ensures s.consistNext == At(s.consist, s.place + 1)
    ensures s.consistLead == (if s.place == 0 then null else s.consist[0])
  {
  }

  /** The members of a slot's consist agree about it. */
  lemma MembersAgree(lead: LocoSlot)
    requires lead.Agreed()
    ensures forall s | s in lead.consist ::
      s.consist == lead.consist && s.place < |s.consist| && s.consist[s.place] == s
    ensures forall k {:trigger lead.consist[k].place} | 0 <= k < |lead.consist| :: lead.consist[k].place == k
  {
    forall s | s in lead.consist
      ensures s.consist == lead.consist && s.place < |s.consist| && s.consist[s.place] == s
    {
      var k :| 0 <= k < |lead.consist| && lead.consist[k] == s;
      assert lead.consist[k].place == k;
    }
  }

  /** Another slot's consist has no members in this one. */
  lemma OtherConsist(s: LocoSlot, c: seq<LocoSlot>)
    requires s.Placed() && s.Agreed() && s !in c
    requires forall x | x in c :: x.consist == c
    ensures forall x | x in s.consist :: x !in c
  {
    forall x | x in s.consist
      ensures x !in c
    {
      var k :| 0 <= k < |s.consist| && s.consist[k] == x;
      assert s.consist[k].place == k;
    }
  }

  // ---------- Dissolving ----------

  /** The loop of deleteAnyConsist, from the lead on. */
  method ClearLinks(lead: LocoSlot, ghost nodes: set<LocoSlot>)
    requires Grouped(nodes) && lead in nodes && lead.place == 0
    modifies nodes`consistLead, nodes`consistNext, nodes`consistReverse
    ensures forall s | s in nodes ::
      if s in lead.consist then s.consistLead == null && s.consistNext == null && !s.consistReverse
      else s.Placed() && s.consistReverse == old(s.consistReverse)
  {
    hide LocoSlot.Placed, LocoSlot.Agreed;
    ghost var c := lead.consist;
    MembersAgree(lead);
    PlaceOf(lead);
    assert Inside(lead, nodes);
    var slot: LocoSlot? := lead;
    ghost var i := 0;
    while slot != null
      invariant i <= |c| && slot == At(c, i)
      invariant forall s | s in nodes ::
        if s in c && s.place < i then s.consistLead == null && s.consistNext == null && !s.consistReverse
        else s.Placed() && (s !in c ==> s.consistReverse == old(s.consistReverse))
      decreases |c| - i
    {
      assert c[i].place == i;
      PlaceOf(slot);
      var next := slot.consistNext;
      slot.consistLead := null;
      slot.consistNext := null;
      slot.consistReverse := false;
      slot := next;
      i := i + 1;
    }
  }

  /** All members are on their own. */
  ghost method Scatter(c: seq<LocoSlot>)
    modifies c`consist, c`place
    ensures forall s | s in c :: s.Solo()
  {
    forall s | s in c {
      s.consist := [s];
    }
    forall s | s in c {
      s.place := 0;
    }
  }

  /** Only the members of one consist change: they are all alone now. */
  twostate predicate Dissolved(nodes: set<LocoSlot>, members: seq<LocoSlot>)
    reads nodes
  {
    forall s | s in nodes ::
      if s in members then s.Solo() && !s.consistReverse
      else s.consist == old(s.consist) && s.place == old(s.place) && s.consistReverse == old(s.consistReverse)
  }

  method Dissolve(t: Table, lead: LocoSlot)
    requires t.Valid() && lead in t.nodes && lead.place == 0
    modifies t.nodes`consistLead, t.nodes`consistNext, t.nodes`consistReverse, t.nodes`consist, t.nodes`place
    ensures t.Valid() && Dissolved(t.nodes, old(lead.consist))
  {
    hide Chain, Distinct, LocoSlot.Placed, LocoSlot.Agreed;
    ghost var c := lead.consist;
    MembersAgree(lead);
    assert Inside(lead, t.nodes);
    forall s | s in t.nodes && s !in c
      ensures forall x | x in s.consist :: x !in c
    {
      OtherConsist(s, c);
    }
    ClearLinks(lead, t.nodes);
    Scatter(c);
    forall s | s in c
      ensures s.Placed() && s.Agreed() && Inside(s, t.nodes)
    {
      AloneIsGrouped(s);
    }
  }

  lemma AloneIsGrouped(s: LocoSlot)
    requires s.Solo() && s.consistLead == null && s.consistNext == null
    ensures s.Placed() && s.Agreed()
  {
  }

  /** What the flags of a slot say about its consist. */
  lemma Roles(s: LocoSlot)
    requires s.Placed() && s.Agreed()
    ensures s.IsConsistLead() <==> s.place == 0 && |s.consist| > 1
    ensures s.IsConsistFollower() <==> s.place > 0
    ensures |s.consist| == 1 ==> s.Solo()
    ensures s.place > 0 ==> s.consistLead in s.consist && s.consistLead.place == 0 && s.consistLead.consist == s.consist
  {
    PlaceOf(s);
    if s.place > 0 {
      assert s.consist[0].place == 0;
    }
  }

  /** deleteAnyConsist, whether the loco leads its consist or follows in it. */
  method DeleteAnyConsist(t: Table, locoid: int)
    requires t.Valid()
    modifies t.nodes`consistLead, t.nodes`consistNext, t.nodes`consistReverse, t.nodes`consist, t.nodes`place
    ensures t.Valid()
    ensures forall s | s in t.nodes && s.loco == Abs(locoid) ::
      Dissolved(t.nodes, if |old(s.consist)| == 1 then [] else old(s.consist))
    ensures (forall s | s in t.nodes :: s.loco != Abs(locoid)) ==> Dissolved(t.nodes, [])
  {
    hide Chain, LocoSlot.Placed, LocoSlot.Agreed;
    var slot := t.Lookup(Abs(locoid));
    if slot == null { return; }
    Roles(slot);
    assert Inside(slot, t.nodes);
    if !slot.IsConsistLead() {
      slot := slot.consistLead;
    }
    if slot == null { return; }
    Dissolve(t, slot);
  }

  // ---------- Joining ----------

  /** The ghost side of joining a slot to a consist. */
  ghost method Adopt(c: seq<LocoSlot>, add: LocoSlot)
    requires add !in c
    modifies c`consist, add`consist, add`place
    ensures add.consist == c + [add] && add.place == |c|
    ensures forall s | s in c :: s.consist == c + [add]
  {
    forall s | s in c {
      s.consist := c + [add];
    }
    add.consist, add.place := c + [add], |c|;
  }

  /** Only the members of one consist change: they have a new colleague at the end. */
  twostate predicate Joined(nodes: set<LocoSlot>, c: seq<LocoSlot>, add: LocoSlot)
    reads nodes
  {
    forall s | s in nodes ::
      if s == add then s.consist == c + [add] && s.place == |c|
      else s.place == old(s.place) && s.consist == (if s in c then c + [add] else old(s.consist))
  }

  /** Setting the pointers. */
  method Couple(lead: LocoSlot, tail: LocoSlot, add: LocoSlot)
    requires lead.Agreed() && lead.place == 0 && forall s | s in lead.consist :: s.Placed()
    requires lead.consist != [] && lead.consist[0] == lead && tail == lead.consist[|lead.consist| - 1]
    requires add.Placed() && add.Solo() && add !in lead.consist
    modifies add`consistLead, tail`consistNext, lead.consist`consist, add`consist, add`place
    ensures add.place == |old(lead.consist)|
    ensures forall s | s in old(lead.consist) + [add] ::
      s.consist == old(lead.consist) + [add] && s.Placed() && s.Agreed()
  {
    hide LocoSlot.Placed, LocoSlot.Agreed;
    ghost var c := lead.consist;
    MembersAgree(lead);
    LinksOf(lead);
    PlaceOf(add);
    add.consistLead := lead;
    tail.consistNext := add;
    Adopt(c, add);
    ghost var d := c + [add];
    forall k | 0 <= k < |d|
      ensures d[k].place == k && d[k].consist == d
      ensures d[k].consistNext == At(d, k + 1) && d[k].consistLead == (if k == 0 then null else d[0])
    {
      assert k < |c| ==> d[k] == c[k] && c[k].place == k;
    }
    LinkedIsGrouped(d);
  }

  /** Chaining a slot that is in no consist behind the tail of the consist of `lead`. */
  method Append(t: Table, lead: LocoSlot, tail: LocoSlot, add: LocoSlot)
    requires t.Valid() && lead in t.nodes && add in t.nodes && lead.place == 0
    requires lead.consist != [] && tail == lead.consist[|lead.consist| - 1]
    requires add.Solo() && add != lead
    modifies t.nodes`consistLead, t.nodes`consistNext, t.nodes`consist, t.nodes`place
    ensures t.Valid() && Joined(t.nodes, old(lead.consist), add)
  {
    hide Chain, Distinct, LocoSlot.Placed, LocoSlot.Agreed;
    ghost var c := lead.consist;
    MembersAgree(lead);
    PlaceOf(lead);
    assert Inside(lead, t.nodes);
    NotWithSolo(lead, add);
    forall s | s in t.nodes && s !in c && s != add
      ensures add !in s.consist && forall x | x in s.consist :: x !in c
    {
      OtherConsist(s, c);
      NotWithSolo(s, add);
    }
    Couple(lead, tail, add);
  }

  lemma LinksOf(lead: LocoSlot)
    requires lead.Agreed() && forall s | s in lead.consist :: s.Placed()
    ensures var c := lead.consist;
      forall k {:trigger c[k].place} | 0 <= k < |c| ::
        c[k].consistNext == At(c, k + 1) && c[k].consistLead == (if k == 0 then null else c[0])
  {
    forall k | 0 <= k < |lead.consist|
      ensures lead.consist[k].consistNext == At(lead.consist, k + 1)
      ensures lead.consist[k].consistLead == (if k == 0 then null else lead.consist[0])
    {
      assert lead.consist[k].place == k;
      assert lead.consist[k].Placed();
    }
  }

  lemma LinkedIsGrouped(d: seq<LocoSlot>)
    requires forall k {:trigger d[k].place} | 0 <= k < |d| ::
      && d[k].place == k && d[k].consist == d
      && d[k].consistNext == At(d, k + 1) && d[k].consistLead == (if k == 0 then null else d[0])
    ensures forall s | s in d :: s.Placed() && s.Agreed()
  {
    forall s | s in d
      ensures s.Placed() && s.Agreed()
    {
      var k :| 0 <= k < |d| && d[k] == s;
      assert d[k].place == k;
      forall j | 0 <= j < |s.consist|
        ensures s.consist[j].consist == s.consist && s.consist[j].place == j
      {
        assert d[j].place == j;
      }
    }
  }

  predicate IsId(id: int) {
    1 <= id <= HIGHEST_ID
  }

  /** Back up to the lead of a consist, as addLocoToConsist does. */
  method LeadOf(t: Table, slot: LocoSlot) returns (lead: LocoSlot)
    requires t.Valid() && slot in t.nodes
    ensures lead in t.nodes && lead.place == 0 && lead.consist == slot.consist && lead in slot.consist
  {
    hide Chain, Distinct, LocoSlot.Placed, LocoSlot.Agreed;
    lead := slot;
    Roles(slot);
    PlaceOf(slot);
    while lead.consistLead != null
      invariant lead in t.nodes && lead in slot.consist && lead.consist == slot.consist
      decreases lead.place
    {
      Roles(lead);
      assert Inside(lead, t.nodes);
      lead := lead.consistLead;
    }
    Roles(lead);
  }

  /** Find the tail of a consist. */
  method TailOf(t: Table, lead: LocoSlot) returns (tail: LocoSlot)
    requires t.Valid() && lead in t.nodes && lead.place == 0
    ensures lead.consist != [] && tail == lead.consist[|lead.consist| - 1]
  {
    hide Chain, Distinct, LocoSlot.Placed, LocoSlot.Agreed;
    ghost var c := lead.consist;
    MembersAgree(lead);
    PlaceOf(lead);
    assert Inside(lead, t.nodes);
    tail := lead;
    ghost var i := 0;
    while tail.consistNext != null
      invariant i < |c| && tail == c[i]
      decreases |c| - i
    {
      assert c[i].place == i;
      PlaceOf(tail);
      tail := tail.consistNext;
      i := i + 1;
    }
    assert c[i].place == i;
    PlaceOf(tail);
  }

  /** No consist changes. */
  twostate predicate Unchanged(nodes: set<LocoSlot>)
    reads nodes
  {
    forall s | s in nodes ::
      s.consist == old(s.consist) && s.place == old(s.place) && s.consistReverse == old(s.consistReverse)
  }

  /** The end of addLocoToConsist, for a loco that is in no consist yet. */
  method AddSlot(t: Table, lead: LocoSlot, tail: LocoSlot, add: LocoSlot, reversed: bool)
    requires t.Valid() && lead in t.nodes && add in t.nodes && lead.place == 0
    requires lead.consist != [] && tail == lead.consist[|lead.consist| - 1]
    requires add.Solo() && add != lead
    modifies t.nodes`consistLead, t.nodes`consistNext, t.nodes`consistReverse, t.nodes`consist, t.nodes`place
    ensures t.Valid() && Joined(t.nodes, old(lead.consist), add) && add.consistReverse == reversed
    ensures forall s | s in t.nodes && s != add :: s.consistReverse == old(s.consistReverse)
  {
    hide Chain, Distinct, Grouped;
    add.consistReverse := reversed;
    Append(t, lead, tail, add);
  }

  /** `add` has joined the consist `c`, and nothing else has changed. */
  twostate predicate JoinedBy(nodes: set<LocoSlot>, new c: seq<LocoSlot>, new add: LocoSlot, reversed: bool)
    reads nodes, c, add
  {
    && add !in c && add.consist == c + [add] && add.consistReverse == reversed
    && (forall s | s in c :: s.consist == c + [add])
    && forall s | s in nodes && s != add ::
         s.place == old(s.place) && s.consistReverse == old(s.consistReverse) &&
         (s !in c ==> s.consist == old(s.consist))
  }

  ghost function Ids(nodes: set<LocoSlot>): set<int>
    reads nodes`loco
  {
    set s | s in nodes :: s.loco
  }

  /** How many of the parameters from the `n`-th on name locos without a slot. */
  lemma {:induction false} Sized(slots: seq<LocoSlot>, nodes: set<LocoSlot>)
    requires forall i | 0 <= i < |slots| :: slots[i] in nodes
    requires forall s | s in nodes :: s in slots
    requires forall i, j | 0 <= i < j < |slots| :: slots[i] != slots[j]
    ensures |slots| == |nodes|
    decreases |slots|
  {
    if slots == [] {
      assert nodes == {};
    } else {
      Sized(slots[1..], nodes - {slots[0]});
    }
  }

  lemma ListIsSized(t: Table)
    requires t.Valid()
    ensures |t.active| == |t.nodes| <= t.maxLocos
  {
    Sized(t.active, t.nodes);
  }

  /** What a slot for one more loco does to the table. */
  lemma Grown(t: Table, before: set<LocoSlot>, ids: set<int>, slot: LocoSlot)
    requires t.Valid() && t.nodes == before + {slot} && ids == Ids(before)
    ensures Ids(t.nodes) == ids + {slot.loco}
    ensures |t.nodes| == |before| + if slot.loco in ids then 0 else 1
  {
    if slot in before {
      assert t.nodes == before;
    } else {
      assert slot.loco !in ids;
    }
  }

  /** getSlot with what it does to the number of slots. */
  method SlotFor(t: Table, id: uint16) returns (slot: LocoSlot?)
    requires t.Valid() && id != 0
    modifies t`firstSlot, t`recycler, t`slotCount, t`chainModified, t`active, t`nodes, t`recycled, t`spare, t.spare
    ensures t.Valid() && t.nodes >= old(t.nodes) && t.spare <= old(t.spare)
    ensures slot == null ==> |t.active| == t.maxLocos && t.nodes == old(t.nodes) && t.spare == old(t.spare)
    ensures slot == null ==> id !in old(Ids(t.nodes)) && old(|t.nodes|) == t.maxLocos
    ensures slot != null ==> t.nodes == old(t.nodes) + {slot} && slot.loco == id
    ensures slot != null ==> slot in old(t.nodes) || slot in old(t.spare) || fresh(slot)
    ensures slot != null && slot !in old(t.nodes) ==> slot.Solo() && !slot.consistReverse && id !in old(Ids(t.nodes))
    ensures slot != null ==> Ids(t.nodes) == old(Ids(t.nodes)) + {id}
    ensures slot != null ==> |t.nodes| == old(|t.nodes|) + if id in old(Ids(t.nodes)) then 0 else 1
  {
    hide Chain, Distinct, Grouped, LocoSlot.Placed, LocoSlot.Agreed;
    ghost var before, ids := t.nodes, Ids(t.nodes);
    ListIsSized(t);
    slot := t.GetSlot(id, true);
    if slot == null { return; }
    assert Ids(before) == ids;
    Grown(t, before, ids, slot);
  }

  /** Is loco `id` in a consist with others? */
  ghost predicate Taken(nodes: set<LocoSlot>, id: nat)
    reads nodes
  {
    exists s | s in nodes :: s.loco == id && !s.Solo()
  }

  /** How many slots loco `id` still needs. */
  ghost function Absent(t: Table, id: nat): nat
    reads t, t.nodes
  {
    if id in Ids(t.nodes) then 0 else 1
  }

  /** Whether a loco cannot be put in a consist: it is in one already, or there is no room for it in the table. */
  ghost predicate Blocked(t: Table, locoId: nat)
    reads t, t.nodes
  {
    Taken(t.nodes, locoId) || |t.nodes| + Absent(t, locoId) > t.maxLocos
  }

  /** A loco with a slot is taken exactly if that is in a consist with others. */
  lemma TakenAt(nodes: set<LocoSlot>, slot: LocoSlot)
    requires Distinct(nodes) && slot in nodes
    ensures Taken(nodes, slot.loco) <==> !slot.Solo()
  {
  }

  /** A new slot, alone, of another loco does not take this one. */
  lemma TakenStays(before: set<LocoSlot>, nodes: set<LocoSlot>, slot: LocoSlot, id: nat)
    requires nodes == before + {slot} && slot.loco != id
    ensures Taken(nodes, id) <==> Taken(before, id)
  {
  }

  lemma TakenHasSlot(nodes: set<LocoSlot>, id: nat)
    ensures Taken(nodes, id) ==> id in Ids(nodes)
  {
  }

  /** addLocoToConsist from the search for the lead on; `c` is the consist of `one` before. */
  method Extend(t: Table, one: LocoSlot, locoId: uint16, reversed: bool)
      returns (addSlot: LocoSlot?, ghost c: seq<LocoSlot>)
    requires t.Valid() && one in t.nodes && one.loco != locoId && locoId != 0
    modifies t, t.spare, t.nodes`consistLead, t.nodes`consistNext, t.nodes`consistReverse, t.nodes`consist,
      t.nodes`place
    ensures t.Valid() && t.nextLocoReminder == old(t.nextLocoReminder) && t.nodes >= old(t.nodes)
    ensures c == old(one.consist) && one in c && forall s | s in c :: s in old(t.nodes)
    ensures addSlot == null <==> old(Blocked(t, locoId))
    ensures addSlot == null ==> Unchanged(old(t.nodes))
    ensures addSlot != null ==>
      addSlot in t.nodes && addSlot.loco == locoId && JoinedBy(old(t.nodes), c, addSlot, reversed)
  {
    hide Chain, Distinct, Grouped, LocoSlot.Placed, LocoSlot.Agreed, Ids, Taken;
    ConsistOf(one, t.nodes);
    TakenHasSlot(t.nodes, locoId);
    forall s | s in t.nodes && s.loco == locoId ensures Taken(t.nodes, locoId) <==> !s.Solo() {
      TakenAt(t.nodes, s);
    }
    c := one.consist;
    var leadSlot := LeadOf(t, one);
    var tailSlot := TailOf(t, leadSlot);
    addSlot := SlotFor(t, locoId);
    if addSlot == null { return; }
    ListIsSized(t);
    var ok := Enrol(t, one, leadSlot, tailSlot, addSlot, reversed);
    if !ok {
      addSlot := null;
    }
  }

  /** addLocoToConsist once it has both slots. */
  method Enrol(t: Table, ghost one: LocoSlot, lead: LocoSlot, tail: LocoSlot, add: LocoSlot, reversed: bool)
      returns (ok: bool)
    requires t.Valid() && one in t.nodes && add in t.nodes && add.loco != one.loco
    requires lead in t.nodes && lead.place == 0 && lead.consist == one.consist && lead in one.consist
    requires lead.consist != [] && tail == lead.consist[|lead.consist| - 1]
    modifies t.nodes`consistLead, t.nodes`consistNext, t.nodes`consistReverse, t.nodes`consist, t.nodes`place
    ensures t.Valid()
    ensures ok <==> old(add.Solo())
    ensures !ok ==> Unchanged(t.nodes)
    ensures ok ==> JoinedBy(t.nodes, old(one.consist), add, reversed)
  {
    hide Chain, Distinct, Grouped, LocoSlot.Placed, LocoSlot.Agreed;
    ConsistOf(add, t.nodes);
    if add.IsConsistLead() || add.IsConsistFollower() { return false; }
    ConsistOf(one, t.nodes);
    ConsistOf(lead, t.nodes);
    AddSlot(t, lead, tail, add, reversed);
    return true;
  }

  /** What a slot's consist is, in a valid table. */
  lemma ConsistOf(s: LocoSlot, nodes: set<LocoSlot>)
    requires Grouped(nodes) && s in nodes
    ensures s in s.consist && forall x | x in s.consist :: x in nodes && x.consist == s.consist
    ensures s.IsConsistLead() || s.IsConsistFollower() <==> !s.Solo()
  {
    hide LocoSlot.Placed, LocoSlot.Agreed;
    Roles(s);
    PlaceOf(s);
    MembersAgree(s);
    assert Inside(s, nodes);
  }

  /** addLocoToConsist.  `one` and `add` are the slots of the two locos, `c` the consist of `one` before. */
  method AddLocoToConsist(t: Table, consistId: uint16, locoId: uint16, reversed: bool)
    returns (ok: bool, ghost one: LocoSlot?, ghost add: LocoSlot?, ghost c: seq<LocoSlot>)
    requires t.Valid()
    modifies t, t.spare, t.nodes`consistLead, t.nodes`consistNext, t.nodes`consistReverse, t.nodes`consist,
      t.nodes`place
    ensures t.Valid() && t.nextLocoReminder == old(t.nextLocoReminder) && t.nodes >= old(t.nodes)
    ensures !(IsId(consistId) && IsId(locoId)) ==> !ok
    ensures !ok || locoId == consistId ==> Unchanged(old(t.nodes))
    ensures IsId(consistId) && IsId(locoId) ==>
      (!ok <==> locoId != consistId && old(
        Taken(t.nodes, locoId) || |t.nodes| + Absent(t, consistId) + Absent(t, locoId) > t.maxLocos))
    ensures ok && locoId != consistId ==>
      && one != null && one in t.nodes && one.loco == consistId && one in c
      && (one in old(t.nodes) ==> c == old(one.consist)) && (one !in old(t.nodes) ==> c == [one])
      && add != null && add in t.nodes && add.loco == locoId && JoinedBy(old(t.nodes), c, add, reversed)
  {
    hide Chain, Distinct, Grouped, LocoSlot.Placed, LocoSlot.Agreed, Ids, Taken;
    one, add, c := null, null, [];
    if !IsId(consistId) || !IsId(locoId) { return false, null, null, []; }
    if locoId == consistId { return true, null, null, []; }
    var leadSlot := SlotFor(t, consistId);
    if leadSlot == null { return false, null, null, []; }
    one := leadSlot;
    TakenStays(old(t.nodes), t.nodes, leadSlot, locoId);
    var addSlot;
    addSlot, c := Extend(t, leadSlot, locoId, reversed);
    add := addSlot;
    ok := addSlot != null;
  }

  // ---------- The command ----------

  /** Ids in range and, but for the sign that says how a loco faces, all different. */
  ghost predicate ProperIds(p: seq<int>) {
    && (forall i | 0 <= i < |p| :: IsId(Abs(p[i])))
    && (forall i, j | 0 <= i < j < |p| :: Abs(p[i]) != Abs(p[j]))
  }

  method CheckIds(p: seq<int>) returns (ok: bool)
    ensures ok <==> ProperIds(p)
  {
    var i := 0;
    while i < |p|
      invariant 0 <= i <= |p|
      invariant forall k | 0 <= k < i :: IsId(Abs(p[k]))
      invariant forall k, j | 0 <= k < i && k < j < |p| :: Abs(p[k]) != Abs(p[j])
    {
      if !IsId(Abs(p[i])) { return false; }
      var j := i + 1;
      while j < |p|
        invariant i < j <= |p|
        invariant forall k | i < k < j :: Abs(p[i]) != Abs(p[k])
      {
        if Abs(p[j]) == Abs(p[i]) { return false; }
        j := j + 1;
      }
      i := i + 1;
    }
    return true;
  }

  method AnyTaken(t: Table, p: seq<int>) returns (taken: bool)
    requires t.Valid()
    ensures taken <==> exists i | 0 <= i < |p| :: Taken(t.nodes, Abs(p[i]))
  {
    hide Chain, LocoSlot.Placed, LocoSlot.Agreed;
    var i := 0;
    while i < |p|
      invariant 0 <= i <= |p|
      invariant forall k | 0 <= k < i :: !Taken(t.nodes, Abs(p[k]))
    {
      var slot := t.Lookup(Abs(p[i]));
      if slot != null {
        ConsistOf(slot, t.nodes);
        if slot.IsConsistLead() || slot.IsConsistFollower() {
          assert Taken(t.nodes, Abs(p[i]));
          return true;
        }
      }
      i := i + 1;
    }
    return false;
  }

  ghost function Missing(p: seq<int>, n: nat, ids: set<int>): nat
    decreases |p| - n
  {
    if n >= |p| then 0 else (if Abs(p[n]) in ids then 0 else 1) + Missing(p, n + 1, ids)
  }

  lemma {:induction false} MissingOthers(p: seq<int>, n: nat, ids: set<int>, id: int)
    requires forall k | n <= k < |p| :: Abs(p[k]) != id
    ensures Missing(p, n, ids + {id}) == Missing(p, n, ids)
    decreases |p| - n
  {
    if n < |p| {
      MissingOthers(p, n + 1, ids, id);
    }
  }

  /** How many slots there will be when all that are missing have been made. */
  ghost function Needed(t: Table, p: seq<int>, n: nat): nat
    reads t, t.nodes`loco
  {
    |t.nodes| + Missing(p, n, Ids(t.nodes))
  }

  /** A slot for the next parameter leaves the number of slots needed as it was. */
  lemma NeededStays(p: seq<int>, n: nat, ids: set<int>)
    requires ProperIds(p) && n < |p|
    ensures (if Abs(p[n]) in ids then 0 else 1) + Missing(p, n + 1, ids + {Abs(p[n])}) == Missing(p, n, ids)
  {
    MissingOthers(p, n + 1, ids, Abs(p[n]));
  }

  /** One turn of the loop that builds a consist; null if the table is full. */
  method AddMember(t: Table, lead: LocoSlot, prev: LocoSlot, id: uint16, reversed: bool) returns (slot: LocoSlot?)
    requires t.Valid() && lead in t.nodes && lead.place == 0 && id != 0 && id != lead.loco && !Taken(t.nodes, id)
    requires lead.consist != [] && prev == lead.consist[|lead.consist| - 1]
    modifies t, t.spare, t.nodes`consistLead, t.nodes`consistNext, t.nodes`consistReverse, t.nodes`consist,
      t.nodes`place
    ensures t.Valid() && t.nextLocoReminder == old(t.nextLocoReminder) && t.nodes >= old(t.nodes)
    ensures slot == null ==>
      |t.active| == t.maxLocos && t.nodes == old(t.nodes) && t.spare == old(t.spare) && Unchanged(t.nodes)
    ensures slot == null ==> id !in old(Ids(t.nodes)) && old(|t.nodes|) == t.maxLocos
    ensures slot != null ==> Ids(t.nodes) == old(Ids(t.nodes)) + {id}
    ensures slot != null ==> |t.nodes| == old(|t.nodes|) + if id in old(Ids(t.nodes)) then 0 else 1
    ensures slot != null ==> t.nodes == old(t.nodes) + {slot} && t.spare <= old(t.spare)
    ensures slot != null ==> slot in old(t.nodes) || slot in old(t.spare) || fresh(slot)
    ensures slot != null ==> slot.loco == id && JoinedBy(old(t.nodes), old(lead.consist), slot, reversed)
  {
    hide Chain, Distinct, Grouped, LocoSlot.Placed, LocoSlot.Agreed, Ids;
    slot := SlotFor(t, id);
    if slot == null { return; }
    ConsistOf(lead, t.nodes);
    AddSlot(t, lead, prev, slot, reversed);
  }

  /** These slots are one consist, of the locos and directions that the first `n` parameters name. */
  ghost predicate Built(made: seq<LocoSlot>, nodes: set<LocoSlot>, p: seq<int>, n: nat)
    reads nodes
  {
    && |made| == n <= |p|
    && forall k | 0 <= k < n ::
         made[k] in nodes && made[k].loco == Abs(p[k]) && made[k].consistReverse == (p[k] < 0)
           && made[k].consist == made
  }

  /** Slots of other locos are as they were. */
  twostate predicate OthersKept(nodes: set<LocoSlot>, new made: seq<LocoSlot>)
    reads nodes
  {
    forall s | s in nodes && s !in made ::
      s.consist == old(s.consist) && s.place == old(s.place) && s.consistReverse == old(s.consistReverse)
  }

  /** The locos of the other parameters are in no consist. */
  ghost predicate RestFree(nodes: set<LocoSlot>, p: seq<int>, n: nat)
    reads nodes
  {
    forall k | n <= k < |p| :: !Taken(nodes, Abs(p[k]))
  }

  /** The lead of a new consist, alone so far; null if the table is full. */
  method StartConsist(t: Table, p: seq<int>) returns (lead: LocoSlot?)
    requires t.Valid() && ProperIds(p) && p != [] && RestFree(t.nodes, p, 0)
    modifies t, t.spare, t.nodes`consistReverse
    ensures t.Valid() && t.nextLocoReminder == old(t.nextLocoReminder)
    ensures t.nodes >= old(t.nodes) && t.spare <= old(t.spare)
    ensures lead == null ==> |t.active| == t.maxLocos && OthersKept(old(t.nodes), [])
    ensures if lead == null then old(Needed(t, p, 0)) > t.maxLocos else Needed(t, p, 1) == old(Needed(t, p, 0))
    ensures lead != null ==>
      t.nodes == old(t.nodes) + {lead} && (lead in old(t.nodes) || lead in old(t.spare) || fresh(lead))
    ensures lead != null ==> Built([lead], t.nodes, p, 1) && lead.place == 0 && RestFree(t.nodes, p, 1)
    ensures lead != null ==> OthersKept(old(t.nodes), [lead])
  {
    hide Chain, Distinct, Grouped, LocoSlot.Placed, LocoSlot.Agreed, Ids, Missing;
    assert !Taken(t.nodes, Abs(p[0]));
    NeededStays(p, 0, Ids(t.nodes));
    lead := SlotFor(t, Abs(p[0]));
    if lead == null { return; }
    assert Needed(t, p, 1) == old(Needed(t, p, 0));
    assert lead.Solo();
    lead.consistReverse := p[0] < 0;
  }

  method NextMember(t: Table, lead: LocoSlot, prev: LocoSlot, p: seq<int>, i: nat, ghost made: seq<LocoSlot>)
      returns (slot: LocoSlot?)
    requires t.Valid() && ProperIds(p) && 0 < i < |p| && Built(made, t.nodes, p, i) && RestFree(t.nodes, p, i)
    requires made[0] == lead && lead.place == 0 && prev == made[i - 1]
    modifies t, t.spare, t.nodes`consistLead, t.nodes`consistNext, t.nodes`consistReverse, t.nodes`consist,
      t.nodes`place
    ensures t.Valid() && t.nextLocoReminder == old(t.nextLocoReminder)
    ensures t.nodes >= old(t.nodes) && t.spare <= old(t.spare)
    ensures slot == null ==> |t.active| == t.maxLocos && t.nodes == old(t.nodes) && OthersKept(t.nodes, [])
    ensures if slot == null then old(Needed(t, p, i)) > t.maxLocos else Needed(t, p, i + 1) == old(Needed(t, p, i))
    ensures slot != null ==>
      t.nodes == old(t.nodes) + {slot} && (slot in old(t.nodes) || slot in old(t.spare) || fresh(slot))
    ensures slot != null ==> Built(made + [slot], t.nodes, p, i + 1) && lead.place == 0 && RestFree(t.nodes, p, i + 1)
    ensures slot != null ==> OthersKept(old(t.nodes), made + [slot])
  {
    hide Chain, Distinct, Grouped, LocoSlot.Placed, LocoSlot.Agreed, Ids, Missing;
    assert !Taken(t.nodes, Abs(p[i]));
    NeededStays(p, i, Ids(t.nodes));
    slot := AddMember(t, lead, prev, Abs(p[i]), p[i] < 0);
  }

  /** The end of parse.  `made` is the new consist. */
  method Build(t: Table, p: seq<int>) returns (built: bool, ghost made: seq<LocoSlot>)
    requires t.Valid() && ProperIds(p) && |p| >= 2 && RestFree(t.nodes, p, 0)
    modifies t, t.spare, t.nodes`consistLead, t.nodes`consistNext, t.nodes`consistReverse, t.nodes`consist,
      t.nodes`place
    ensures t.Valid() && t.nextLocoReminder == old(t.nextLocoReminder) && t.nodes >= old(t.nodes)
    ensures built ==> Built(made, t.nodes, p, |p|)
    ensures !built ==> |t.active| == t.maxLocos
    ensures built <==> old(Needed(t, p, 0)) <= t.maxLocos
    ensures OthersKept(old(t.nodes), made)
  {
    hide Chain, Distinct, Grouped, LocoSlot.Placed, LocoSlot.Agreed, Built, RestFree, ProperIds, Table.Valid;
    made := [];
    var leadLoco := StartConsist(t, p);
    if leadLoco == null { return false, []; }
    made := [leadLoco];
    var prev := leadLoco;
    var i := 1;
    while i < |p|
      invariant 1 <= i <= |p| && t.Valid() && t.nextLocoReminder == old(t.nextLocoReminder) && t.nodes >= old(t.nodes)
      invariant t.spare <= old(t.spare) && forall s | s in t.nodes :: s in old(t.nodes) || s in old(t.spare) || fresh(s)
      invariant Built(made, t.nodes, p, i) && RestFree(t.nodes, p, i)
      invariant |made| == i && made[0] == leadLoco && leadLoco.place == 0 && prev == made[i - 1]
      invariant OthersKept(old(t.nodes), made)
      invariant Needed(t, p, i) == old(Needed(t, p, 0))
    {
      var slot := NextMember(t, leadLoco, prev, p, i, made);
      if slot == null { return false, made; }
      made := made + [slot];
      prev := slot;
      i := i + 1;
    }
    ListIsSized(t);
    return true, made;
  }

  ghost predicate Led(s: LocoSlot, nodes: set<LocoSlot>, id: nat)
    reads s, nodes
  {
    s.consist != [] && s.consist[0] in nodes && s.consist[0].loco == id
  }

  /** If this loco led a consist, its members are alone now; nothing else has changed. */
  twostate predicate LedDissolved(nodes: set<LocoSlot>, id: nat)
    reads nodes
  {
    forall s | s in nodes ::
      if old(Led(s, nodes, id)) then s.Solo()
      else s.consist == old(s.consist) && s.place == old(s.place) && s.consistReverse == old(s.consistReverse)
  }

  /** Is loco `n` in a consist with others that loco `id` does not lead? */
  ghost predicate TakenElsewhere(nodes: set<LocoSlot>, n: nat, id: nat)
    reads nodes
  {
    exists s | s in nodes :: s.loco == n && !s.Solo() && !Led(s, nodes, id)
  }

  /** The cross check of parse: if the first loco leads a consist, that is deleted. */
  method DropLed(t: Table, id: int)
    requires t.Valid()
    modifies t.nodes`consistLead, t.nodes`consistNext, t.nodes`consistReverse, t.nodes`consist, t.nodes`place
    ensures t.Valid() && LedDissolved(t.nodes, Abs(id))
    ensures forall n :: Taken(t.nodes, n) <==> old(TakenElsewhere(t.nodes, n, Abs(id)))
  {
    hide Chain, LocoSlot.Placed, LocoSlot.Agreed, Led, Grouped, Distinct;
    var slot := t.Lookup(Abs(id));
    LedBy(t.nodes, slot, Abs(id));
    if slot != null && slot.IsConsistLead() {
      DeleteAnyConsist(t, id);
    }
  }

  /** Who is led by the loco of this slot. */
  lemma LedBy(nodes: set<LocoSlot>, slot: LocoSlot?, id: nat)
    requires Grouped(nodes) && Distinct(nodes)
    requires if slot == null then forall s | s in nodes :: s.loco != id else slot in nodes && slot.loco == id
    ensures forall s | s in nodes ::
      Led(s, nodes, id) <==> slot != null && s in slot.consist && slot.place == 0
    ensures slot != null && !slot.IsConsistLead() ==> forall s | s in nodes && Led(s, nodes, id) :: s.Solo()
    ensures slot != null && slot.IsConsistLead() ==> |slot.consist| > 1 && slot.place == 0
  {
    hide LocoSlot.Placed, LocoSlot.Agreed;
    if slot != null {
      ConsistOf(slot, nodes);
      Roles(slot);
      PlaceOf(slot);
    }
    forall s | s in nodes
      ensures s.consist != [] && s in s.consist && s.consist[0] in nodes && s.consist[0].consist == s.consist
        && s.consist[0].place == 0
    {
      ConsistOf(s, nodes);
      MembersAgree(s);
      assert s.consist[0].place == 0;
    }
  }

  /** NullDeref: parse writes through the null that getSlot returns when the table is full.  That is so
      exactly if the new consist needs more slots than there may be. */
  datatype Reply = Accepted | Rejected | NullDeref

  /** A loco named by a parameter is in a consist that the first loco does not lead. */
  ghost predicate Clashes(nodes: set<LocoSlot>, p: seq<int>)
    reads nodes
  {
    exists k | 0 <= k < |p| :: TakenElsewhere(nodes, Abs(p[k]), Abs(p[0]))
  }

  /** Slots that are not in the new consist are as they were, or alone if the first loco led them. */
  twostate predicate Rearranged(nodes: set<LocoSlot>, new made: seq<LocoSlot>, id: nat)
    reads nodes
  {
    forall s | s in nodes && s !in made ::
      if old(Led(s, nodes, id)) then s.Solo()
      else s.consist == old(s.consist) && s.place == old(s.place) && s.consistReverse == old(s.consistReverse)
  }

  /** DCCConsist::parse; listing the consists (no parameters) is not modelled. */
  method Parse(t: Table, p: seq<int>) returns (reply: Reply, ghost made: seq<LocoSlot>)
    requires t.Valid()
    modifies t, t.spare, t.nodes`consistLead, t.nodes`consistNext, t.nodes`consistReverse, t.nodes`consist,
      t.nodes`place
    ensures t.Valid() && t.nextLocoReminder == old(t.nextLocoReminder) && t.nodes >= old(t.nodes)
    ensures p == [] ==> reply == Accepted && Unchanged(old(t.nodes))
    ensures p != [] && !ProperIds(p) ==> reply == Rejected && Unchanged(old(t.nodes))
    ensures p != [] && ProperIds(p) ==> Rearranged(old(t.nodes), made, Abs(p[0]))
    ensures |p| == 1 && ProperIds(p) ==> reply == Accepted && made == []
    ensures |p| >= 2 && ProperIds(p) ==> (reply == Rejected <==> old(Clashes(t.nodes, p)))
    ensures |p| >= 2 && reply == Accepted ==> Built(made, t.nodes, p, |p|)
    ensures reply == Rejected ==> made == []
    ensures reply == NullDeref ==> |t.active| == t.maxLocos
    ensures |p| >= 2 && ProperIds(p) ==>
      (reply == NullDeref <==> !old(Clashes(t.nodes, p)) && old(Needed(t, p, 0)) > t.maxLocos)
  {
    hide Chain, Distinct, Grouped, LocoSlot.Placed, LocoSlot.Agreed, Led, Built, Taken, TakenElsewhere, ProperIds;
    made := [];
    if p == [] { return Accepted, []; }
    var ok := CheckIds(p);
    if !ok { return Rejected, []; }
    DropLed(t, p[0]);
    if |p| < 2 { return Accepted, []; }
    var taken := AnyTaken(t, p);
    if taken { return Rejected, []; }
    var built;
    built, made := Build(t, p);
    reply := if built then Accepted else NullDeref;
  }

  /** An input on which it does: two locos, and room for one. */
  method TwoLocosInOneSlot() returns (reply: Reply)
    ensures reply == NullDeref
  {
    var t := new Table(1);
    var p := [1, 2];
    assert Missing(p, 2, {}) == 0 && Missing(p, 1, {}) == 1;
    assert Ids(t.nodes) == {} && Needed(t, p, 0) == 2;
    ghost var made;
    reply, made := Parse(t, p);
  }
}

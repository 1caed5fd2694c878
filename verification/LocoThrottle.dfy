/** The throttle, function, reminder and forget operations of DCC.cpp over the table of locos.  What
    they hand to the packet queues is recorded as the acts that EstopLock reasons about. */
module LocoThrottle {
  import opened Bytes
  import opened LocoTable
  import opened DCCConsist
  import EstopLock
  import DccPackets
  import LocoFunctions
  import Momentum
  import PacketQueue
  import PacketRules
  import ReminderRounds

  type Act = EstopLock.Act

  /** One setThrottleDCC call for each slot. */
  ghost function Orders(c: seq<LocoSlot>, code: byte): (r: seq<Act>)
    reads c`loco, c`consistReverse
    ensures |r| == |c|
    ensures forall k | 0 <= k < |c| :: r[k] == EstopLock.Drive(c[k].loco, c[k].consistReverse, code)
  {
    if c == [] then [] else [EstopLock.Drive(c[0].loco, c[0].consistReverse, code)] + Orders(c[1..], code)
  }

  /** Everything these operations ask for is what the emergency stop lock can cope with. */
  ghost predicate AllAllowed(acts: seq<Act>) {
    forall k | 0 <= k < |acts| ::
      EstopLock.Allowed(acts[k]) && (acts[k].Other? ==> PacketQueue.Typed(acts[k].op))
  }

  class Dcc {
    const table: Table
    var loopStatus: nat
    ghost var acts: seq<Act>

    ghost predicate Valid()
      reads this, table, table.nodes, table.spare
    {
      table.Valid() && AllAllowed(acts) && loopStatus <= 9
    }

    constructor (maxLocos: nat)
      ensures Valid() && fresh(table) && table.maxLocos == maxLocos && table.nodes == {} && acts == []
    {
      table := new Table(maxLocos);
      loopStatus, acts := 0, [];
    }

    /** setThrottle2: from a slot along the consist pointers. */
    method SetThrottle2(slot: LocoSlot, speedCode: byte)
      requires Valid() && slot in table.nodes && slot.place < |slot.consist|
      modifies this`acts, table.nodes`speedCode
      ensures Valid()
      ensures acts == old(acts) + old(Orders(slot.consist[slot.place..], speedCode))
      ensures forall s | s in table.nodes ::
        s.speedCode == if s in slot.consist && s.place >= slot.place then speedCode else old(s.speedCode)
    {
      hide Chain, Distinct, Grouped, LocoSlot.Placed, LocoSlot.Agreed, Orders, AllAllowed;
      ghost var c := slot.consist;
      InGroup(slot, table.nodes);
      ghost var all := Orders(c[slot.place..], speedCode);
      DrivesAreAllowed(acts, all);
      OrderOf(slot, speedCode);
      Walk(slot, speedCode, all);
    }

    /** The loop of setThrottle2. */
    method Walk(slot: LocoSlot, speedCode: byte, ghost all: seq<Act>)
      requires Grouped(table.nodes) && slot in table.nodes && slot.place < |slot.consist|
      requires |all| == |slot.consist| - slot.place
      requires forall s | s in slot.consist && s.consist == slot.consist && slot.place <= s.place < |s.consist| ::
        all[s.place - slot.place] == EstopLock.Drive(s.loco, s.consistReverse, speedCode)
      modifies this`acts, table.nodes`speedCode
      ensures acts == old(acts) + all
      ensures forall s | s in table.nodes ::
        s.speedCode == if s in slot.consist && s.place >= slot.place then speedCode else old(s.speedCode)
    {
      hide Chain, Distinct, Grouped, LocoSlot.Placed, LocoSlot.Agreed;
      ghost var c, before := slot.consist, acts;
      InGroup(slot, table.nodes);
      MembersAgree(slot);
      PlaceOf(slot);
      AllPlaced(slot, table.nodes);
      hide Inside, Recorded;
      RecordedAll(before, all);
      var follower: LocoSlot? := slot;
      ghost var i := slot.place;
      while follower != null
        invariant slot.place <= i <= |c| && follower == At(c, i)
        invariant acts == Recorded(before, all, i - slot.place)
        invariant forall s | s in table.nodes ::
          s.speedCode == if s in c && slot.place <= s.place < i then speedCode else old(s.speedCode)
        decreases |c| - i
      {
        assert c[i].place == i;
        PlaceOf(follower);
        follower.speedCode := speedCode;
        RecordedOne(before, all, i - slot.place);
        acts := acts + [EstopLock.Drive(follower.loco, follower.consistReverse, speedCode)];
        follower := follower.consistNext;
        i := i + 1;
      }
    }

    /** setThrottleDCC for all locos at once. */
    method BroadcastEstop()
      requires Valid()
      modifies this`acts
      ensures Valid() && acts == old(acts) + [EstopLock.Drive(0, false, 1)]
    {
      hide Chain, Distinct, Grouped, AllAllowed;
      DrivesAreAllowed(acts, [EstopLock.Drive(0, false, 1)]);
      acts := acts + [EstopLock.Drive(0, false, 1)];
    }

    /** The part of setThrottle that copies the target speed to the followers. */
    method CopyTarget(lead: LocoSlot, speedCode: byte)
      requires Grouped(table.nodes) && lead in table.nodes && lead.place == 0
      modifies table.nodes`targetSpeed
      ensures forall s | s in table.nodes ::
        s.targetSpeed ==
        if s in lead.consist && s.place > 0 then Flipped(speedCode, s.consistReverse) else old(s.targetSpeed)
    {
      hide Chain, Distinct, LocoSlot.Placed, LocoSlot.Agreed;
      ghost var c := lead.consist;
      MembersAgree(lead);
      PlaceOf(lead);
      assert Inside(lead, table.nodes);
      var follower := lead.consistNext;
      ghost var i := 1;
      while follower != null
        invariant 1 <= i <= |c| && follower == At(c, i)
        invariant forall s | s in table.nodes ::
          s.targetSpeed ==
          if s in c && 0 < s.place < i then Flipped(speedCode, s.consistReverse) else old(s.targetSpeed)
        decreases |c| - i
      {
        assert c[i].place == i;
        PlaceOf(follower);
        follower.targetSpeed := Flipped(speedCode, follower.consistReverse);
        follower := follower.consistNext;
        i := i + 1;
      }
    }

    /** The target of a slot that follows nobody, and of its followers. */
    method SetTarget(slot: LocoSlot, speedCode: byte)
      requires table.Valid() && slot in table.nodes && slot.place == 0
      modifies table.nodes`targetSpeed
      ensures forall m | m in table.nodes :: m.targetSpeed == TargetOf(m, slot, speedCode, old(m.targetSpeed))
    {
      hide Chain, Distinct, LocoSlot.Placed, LocoSlot.Agreed;
      MembersAgree(slot);
      PlaceOf(slot);
      slot.targetSpeed := speedCode;
      CopyTarget(slot, speedCode);
    }

    /** setThrottle from the change of target on, for a slot that follows nobody. */
    method ChangeTarget(slot: LocoSlot, speedCode: byte, estop: bool, s: Momentum.Settings, now: nat)
      requires Valid() && slot in table.nodes && slot.place == 0
      modifies this`acts, table.nodes`speedCode, table.nodes`targetSpeed, slot`momentumBase
      ensures Valid()
      ensures forall m | m in table.nodes :: m.targetSpeed == TargetOf(m, slot, speedCode, old(m.targetSpeed))
      ensures Driven(slot, table.nodes, speedCode, estop, s, now, old(acts), acts)
    {
      hide Chain, Distinct, LocoSlot.Placed, LocoSlot.Agreed, Orders, AllAllowed, Momentum.GetMomentum;
      ConsistOf(slot, table.nodes);
      SetTarget(slot, speedCode);
      hide TargetOf;
      var momentum := Momentum.GetMomentum(s, Momentum.Ramp(slot.speedCode, slot.targetSpeed, slot.momentumBase));
      if momentum != 0 && !estop {
        slot.momentumBase := now;
      } else {
        Follows(slot, table.nodes);
        assert slot.consist[slot.place..] == slot.consist;
        SetThrottle2(slot, speedCode);
      }
    }

    /** setThrottle once the slot is known. */
    method Command(slot: LocoSlot, speedCode: byte, estop: bool, s: Momentum.Settings, now: nat)
      requires Valid() && slot in table.nodes
      modifies this`acts, table.nodes`speedCode, table.nodes`targetSpeed, slot`momentumBase
      ensures Valid()
      ensures Commanded(slot, table.nodes, speedCode, estop, s, now, old(acts), acts)
      ensures estop && slot.place == 0 && old(slot.targetSpeed) != speedCode ==>
        acts == old(acts) + Orders(slot.consist, speedCode)
      ensures old(slot.IsNew()) ==> Started(slot, speedCode, estop, s, now, old(acts), acts)
    {
      hide Chain, Distinct, Grouped, LocoSlot.Placed, LocoSlot.Agreed, Orders, AllAllowed, Momentum.GetMomentum;
      Follows(slot, table.nodes);
      if slot.IsConsistFollower() || slot.targetSpeed == speedCode { return; }
      ChangeTarget(slot, speedCode, estop, s, now);
      OneOrder(slot, speedCode);
    }

    /** setThrottle when the station drives DCC.  False only if the loco has no slot and gets none. */
    method SetThrottle(cab: uint16, tSpeed: byte, tDirection: bool, s: Momentum.Settings, now: nat)
      returns (ok: bool, ghost slot: LocoSlot?)
      requires Valid()
      modifies this, table, table.spare,
        table.nodes`speedCode, table.nodes`targetSpeed, table.nodes`momentumBase
      ensures Valid() && table.nodes >= old(table.nodes)
      ensures tSpeed == 1 && cab == 0 ==>
        && ok && slot == null && acts == old(acts) + [EstopLock.Drive(0, false, 1)] && table.nodes == old(table.nodes)
        && AllHalted(table.nodes)
      ensures !(tSpeed == 1 && cab == 0) ==> (!ok <==> slot == null)
      ensures !ok ==>
        && acts == old(acts) && Undriven(old(table.nodes))
        && (cab != 0 ==> |table.active| == table.maxLocos && forall m | m in table.nodes :: m.loco != cab)
      ensures slot != null ==> slot in table.nodes && slot.loco == cab
      ensures slot != null && slot in old(table.nodes) ==>
        Commanded(slot, old(table.nodes), CodeOf(tSpeed, tDirection), tSpeed == 1, s, now, old(acts), acts)
      ensures slot != null && slot !in old(table.nodes) ==>
        && slot.Solo() && Undriven(old(table.nodes))
        && Started(slot, CodeOf(tSpeed, tDirection), tSpeed == 1, s, now, old(acts), acts)
    {
      hide Chain, Distinct, Grouped, LocoSlot.Placed, LocoSlot.Agreed, Orders, AllAllowed, Started;
      hide Momentum.GetMomentum;
      var speedCode := CodeOf(tSpeed, tDirection);
      if tSpeed == 1 && cab == 0 {
        EstopAll();
        return true, null;
      }
      var found := table.GetSlot(cab, true);
      if found == null { return false, null; }
      Follows(found, table.nodes);
      Command(found, speedCode, tSpeed == 1, s, now);
      return true, found;
    }

    /** estopAll: every active slot is told to stop in the direction it has. */
    method EstopAll()
      requires Valid()
      modifies this`acts, table.nodes`speedCode, table.nodes`targetSpeed
      ensures Valid() && acts == old(acts) + [EstopLock.Drive(0, false, 1)]
      ensures AllHalted(table.nodes)
    {
      hide Distinct, Grouped, AllAllowed;
      BroadcastEstop();
      StopSlots();
    }

    /** The loop of estopAll over the table. */
    method StopSlots()
      requires table.Valid()
      modifies table.nodes`speedCode, table.nodes`targetSpeed
      ensures AllHalted(table.nodes)
    {
      hide Distinct, Grouped;
      var slot := table.firstSlot;
      ghost var i := 0;
      while slot != null
        invariant i <= |table.active| && slot == At(table.active, i)
        invariant forall k | 0 <= k < i ::
          table.active[k].speedCode == table.active[k].targetSpeed == Halted(old(table.active[k].targetSpeed))
        invariant forall k | i <= k < |table.active| :: table.active[k].targetSpeed == old(table.active[k].targetSpeed)
        decreases |table.active| - i
      {
        table.Follow(i);
        var newspeed: byte := slot.targetSpeed / 128 * 128 + 1;
        slot.speedCode := newspeed;
        slot.targetSpeed := newspeed;
        slot := slot.next;
        i := i + 1;
      }
    }

    /** forgetLoco: stops the loco, dissolves its consist, and gives its slot back. */
    method ForgetLoco(cab: uint16) returns (ghost forgotten: LocoSlot?)
      requires Valid()
      modifies this`acts, table, table.nodes
      ensures Valid()
      ensures if forgotten == null then
                && (forall s | s in old(table.nodes) :: old(s.loco) != cab)
                && acts == old(acts) && table.nodes == old(table.nodes) && Dissolved(table.nodes, [])
              else
                && forgotten in old(table.nodes) && old(forgotten.loco) == cab
                && acts == old(acts) + [EstopLock.Drive(cab, old(forgotten.consistReverse), 1)]
                && table.nodes == old(table.nodes) - {forgotten}
                && Dissolved(table.nodes, if |old(forgotten.consist)| == 1 then [] else old(forgotten.consist))
    {
      hide Chain, Distinct, Grouped, LocoSlot.Placed, LocoSlot.Agreed, AllAllowed, Table.Listed;
      forgotten := null;
      var slot := table.Lookup(cab);
      if slot == null { return; }
      forgotten := slot;
      DrivesAreAllowed(acts, [EstopLock.Drive(cab, slot.consistReverse, 1)]);
      acts := acts + [EstopLock.Drive(cab, slot.consistReverse, 1)];
      Release(slot);
      table.Forget(slot);
    }

    /** The part of forgetLoco that takes a slot out of its consist. */
    method Release(slot: LocoSlot)
      requires Valid() && slot in table.nodes
      modifies table`nextLocoReminder, table.nodes`consistLead, table.nodes`consistNext, table.nodes`consistReverse,
        table.nodes`consist, table.nodes`place
      ensures Valid() && slot.Solo() && table.nextLocoReminder != slot
      ensures Dissolved(table.nodes, if |old(slot.consist)| == 1 then [] else old(slot.consist))
    {
      hide Chain, Distinct, Grouped, LocoSlot.Placed, LocoSlot.Agreed, AllAllowed;
      OnlySlot(slot, table.nodes);
      MoveOn(slot);
      ConsistOf(slot, table.nodes);
      Follows(slot, table.nodes);
      if slot.IsConsistLead() || slot.IsConsistFollower() {
        DeleteAnyConsist(table, slot.loco);
      }
    }

    /** The reminder cursor leaves a slot that is about to be forgotten. */
    method MoveOn(slot: LocoSlot)
      requires table.Valid() && slot in table.nodes
      modifies table`nextLocoReminder
      ensures table.Valid() && table.nextLocoReminder != slot
    {
      hide Distinct, Grouped;
      if table.nextLocoReminder == slot {
        ghost var at := table.IndexOf(slot);
        table.Follow(at);
        table.Follow(at + 1);
        table.nextLocoReminder := slot.next;
      }
    }

    /** forgetAllLocos */
    method ForgetAllLocos()
      requires Valid()
      modifies this`acts, table
      ensures Valid() && table.nodes == {} && table.slotCount == 0 && table.nextLocoReminder == null
      ensures acts == old(acts) + [EstopLock.Drive(0, false, 1)]
    {
      hide Chain, Distinct, Grouped, AllAllowed;
      BroadcastEstop();
      table.ForgetAll();
    }

    /** setFunctionInternal */
    method SendFunction(slot: LocoSlot, group: nat)
      requires Valid() && 1 <= group <= 5
      modifies this`acts
      ensures Valid() && acts == old(acts) + [FunctionAct(slot.loco, slot.functions, group)]
    {
      hide Chain, Distinct, Grouped;
      FunctionsAreAllowed(slot.loco, slot.functions, group);
      acts := acts + [FunctionAct(slot.loco, slot.functions, group)];
    }

    /** The speed part of issueReminder: a step of the ramp, and the new speed to the whole consist. */
    method RemindSpeed(slot: LocoSlot, s: Momentum.Settings, now: nat)
      requires Valid() && slot in table.nodes && slot.place == 0
      modifies this`acts, table.nodes`speedCode, slot`momentumBase
      ensures Valid()
      ensures var ramp := Momentum.Remind(s, old(RampOf(slot)), now);
        && acts == old(acts) + old(Orders(slot.consist, ramp.speed)) && slot.momentumBase == ramp.base
        && forall m | m in table.nodes :: m.speedCode == if m in slot.consist then ramp.speed else old(m.speedCode)
    {
      hide Chain, Distinct, Grouped, LocoSlot.Placed, LocoSlot.Agreed, Orders, AllAllowed, Momentum.Remind;
      ConsistOf(slot, table.nodes);
      Follows(slot, table.nodes);
      assert slot.consist[slot.place..] == slot.consist;
      var ramp := Momentum.Remind(s, Momentum.Ramp(slot.speedCode, slot.targetSpeed, slot.momentumBase), now);
      slot.momentumBase := ramp.base;
      SetThrottle2(slot, ramp.speed);
    }

    /** issueReminder: whether the state of the loop and the slot call for a reminder. */
    method IssueReminder(slot: LocoSlot, s: Momentum.Settings, now: nat) returns (sent: bool)
      requires Valid() && slot in table.nodes
      modifies this`acts, table.nodes`speedCode, slot`momentumBase
      ensures Valid() && loopStatus == old(loopStatus)
      ensures sent == Calls(slot, loopStatus)
      ensures acts == old(acts) + if sent then old(Reminder(slot, loopStatus, s, now)) else []
      ensures forall m | m in table.nodes ::
        (m.speedCode, m.momentumBase) ==
        if sent then old(Reminded(m, slot, loopStatus, s, now)) else old((m.speedCode, m.momentumBase))
    {
      hide Chain, Distinct, Grouped, LocoSlot.Placed, LocoSlot.Agreed, Orders, AllAllowed, LocoFunctions.Touched;
      Follows(slot, table.nodes);
      if loopStatus % 2 == 0 {
        if slot.IsConsistFollower() { return false; }
        RemindSpeed(slot, s, now);
        return true;
      }
      if !LocoFunctions.Touched(slot.functions, loopStatus / 2 + 1) { return false; }
      SendFunction(slot, loopStatus / 2 + 1);
      return true;
    }

    /** The slot that issueReminders looks at first. */
    ghost function Start(): LocoSlot?
      reads table
    {
      if table.chainModified || table.nextLocoReminder == null then table.firstSlot else table.nextLocoReminder
    }

    /** The loop states in which each slot of the table is to be reminded. */
    ghost function Needs(): (needs: seq<set<nat>>)
      requires table.Valid()
      reads table, table.nodes, table.spare
      ensures |needs| == |table.active|
      ensures forall k, status | 0 <= k < |needs| && 0 <= status <= 9 ::
        status in needs[k] <==> Calls(table.active[k], status)
    {
      NeedsFrom(table.active)
    }

    /** Where issueReminders goes on. */
    ghost predicate IsAt(c: ReminderRounds.Cursor)
      reads this, table
    {
      && c.status == loopStatus && c.changed == table.chainModified
      && (c.changed || (c.at <= |table.active| && table.nextLocoReminder == At(table.active, c.at)))
    }

    ghost method Where() returns (c: ReminderRounds.Cursor)
      requires Valid()
      ensures IsAt(c) && ReminderRounds.Stands(Needs(), c)
    {
      hide Chain, Distinct, Grouped, AllAllowed, Calls, NeedsFrom;
      var at := |table.active|;
      if !table.chainModified && table.nextLocoReminder != null { at := table.IndexOf(table.nextLocoReminder); }
      c := ReminderRounds.Cursor(at, table.chainModified, loopStatus);
    }

    /** The restart of issueReminders at the head of the table. */
    method Rewind(ghost c: ReminderRounds.Cursor)
      requires Valid() && IsAt(c) && ReminderRounds.Stands(Needs(), c)
      modifies table`chainModified, table`nextLocoReminder, this`loopStatus
      ensures Valid() && table.nextLocoReminder == old(Start()) && !table.chainModified
      ensures table.nextLocoReminder == null ==> table.active == []
      ensures Needs() == old(Needs()) && IsAt(ReminderRounds.Restarted(Needs(), c))
      ensures loopStatus ==
        if old(table.chainModified || table.nextLocoReminder == null) && table.active != []
        then (old(loopStatus) + 1) % 10
        else old(loopStatus)
    {
      hide Distinct, Grouped, AllAllowed, NeedsFrom, Calls;
      table.Follow(0);
      if table.chainModified || table.nextLocoReminder == null {
        table.chainModified := false;
        table.nextLocoReminder := table.firstSlot;
        if table.nextLocoReminder == null { return; }
        loopStatus := loopStatus + 1;
        if loopStatus > 9 {
          loopStatus := 0;
        }
      }
    }

    /** issueReminders: from the cursor on, the first slot that needs one is reminded, and no other.  The cursor
        is at the `from`-th slot of the table, and the slot that is reminded, if there is one, is the `at`-th. */
    method IssueReminders(s: Momentum.Settings, now: nat)
      returns (ghost c: ReminderRounds.Cursor, ghost from: nat, ghost at: nat)
      requires Valid()
      modifies this`acts, this`loopStatus, table`chainModified, table`nextLocoReminder,
        table.nodes`speedCode, table.nodes`momentumBase
      ensures Valid() && from <= at <= |table.active|
      ensures old(Start()) == At(table.active, from)
      ensures loopStatus ==
        if old(table.chainModified || table.nextLocoReminder == null) && table.active != []
        then (old(loopStatus) + 1) % 10
        else old(loopStatus)
      ensures forall k | from <= k < at :: !Calls(table.active[k], loopStatus)
      ensures at < |table.active| ==> Calls(table.active[at], loopStatus)
      ensures var slot, status := At(table.active, at), loopStatus;
        acts == old(acts) + if slot == null then [] else old(Reminder(slot, status, s, now))
      ensures var slot, status := At(table.active, at), loopStatus;
        forall m | m in table.nodes ::
          (m.speedCode, m.momentumBase) ==
          if slot == null then old((m.speedCode, m.momentumBase)) else old(Reminded(m, slot, status, s, now))
      ensures table.nextLocoReminder == At(table.active, at + 1)
      ensures old(IsAt(c)) && ReminderRounds.Stands(Needs(), c) && Needs() == old(Needs())
      ensures var r := ReminderRounds.Step(Needs(), ReminderRounds.Round(c, []));
        IsAt(r.cursor) && r.log == if at < |table.active| then [(at, loopStatus)] else []
    {
      hide Chain, Distinct, Grouped, AllAllowed, Calls, Reminder, Reminded, NeedsFrom;
      hide ReminderRounds.Restarted, ReminderRounds.Step, ReminderRounds.First, ReminderRounds.Stands;
      c := Where();
      ghost var needs := Needs();
      Rewind(c);
      ghost var start := ReminderRounds.Restarted(needs, c);
      from, at := start.at, start.at;
      if table.nextLocoReminder != null { at := RemindNext(from, s, now); }
      ReminderRounds.Steps(needs, c, start, at);
    }

    /** The loop of issueReminders. */
    method RemindNext(ghost from: nat, s: Momentum.Settings, now: nat) returns (ghost at: nat)
      requires Valid() && from < |table.active| && table.nextLocoReminder == table.active[from]
      modifies this`acts, table`nextLocoReminder, table.nodes`speedCode, table.nodes`momentumBase
      ensures Valid() && from <= at <= |table.active|
      ensures forall k | from <= k < at :: !Calls(table.active[k], loopStatus)
      ensures at < |table.active| ==> Calls(table.active[at], loopStatus)
      ensures var slot := At(table.active, at);
        acts == old(acts) + if slot == null then [] else old(Reminder(slot, loopStatus, s, now))
      ensures var slot := At(table.active, at);
        forall m | m in table.nodes ::
          (m.speedCode, m.momentumBase) ==
          if slot == null then old((m.speedCode, m.momentumBase)) else old(Reminded(m, slot, loopStatus, s, now))
      ensures table.nextLocoReminder == At(table.active, at + 1)
    {
      hide Chain, Distinct, Grouped, LocoSlot.Placed, LocoSlot.Agreed, AllAllowed, Calls, Reminder, Reminded;
      var slot := table.nextLocoReminder;
      at := from;
      while slot != null
        invariant Valid() && from <= at <= |table.active| && slot == At(table.active, at) && acts == old(acts)
        invariant forall k | from <= k < at :: !Calls(table.active[k], loopStatus)
        invariant forall m | m in table.nodes :: (m.speedCode, m.momentumBase) == old((m.speedCode, m.momentumBase))
        decreases |table.active| - at
      {
        table.Follow(at);
        table.Follow(at + 1);
        var sent := IssueReminder(slot, s, now);
        if sent {
          table.nextLocoReminder := slot.next;
          return;
        }
        slot := slot.next;
        at := at + 1;
      }
      table.nextLocoReminder := null;
    }
  }

  /** The slot is to be reminded in this state of the loop: speeds in the even ones, but not those of
      followers, and in the odd ones the function groups that have been touched. */
  predicate Calls(slot: LocoSlot, loopStatus: nat)
    requires loopStatus <= 9
    reads slot`consistLead, slot`functions
  {
    if loopStatus % 2 == 0 then !slot.IsConsistFollower()
    else LocoFunctions.Touched(slot.functions, loopStatus / 2 + 1)
  }

  ghost function NeedsFrom(slots: seq<LocoSlot>): (needs: seq<set<nat>>)
    reads slots`consistLead, slots`functions
    ensures |needs| == |slots|
    ensures forall k, status | 0 <= k < |needs| && 0 <= status <= 9 :: status in needs[k] <==> Calls(slots[k], status)
  {
    if slots == [] then []
    else [set status | 0 <= status <= 9 && Calls(slots[0], status)] + NeedsFrom(slots[1..])
  }

  ghost function RampOf(slot: LocoSlot): Momentum.Ramp
    reads slot`speedCode, slot`targetSpeed, slot`momentumBase
  {
    Momentum.Ramp(slot.speedCode, slot.targetSpeed, slot.momentumBase)
  }

  /** What reminding a slot sends: a function packet, or the next speed of the ramp to its consist. */
  ghost function Reminder(slot: LocoSlot, loopStatus: nat, s: Momentum.Settings, now: nat): seq<Act>
    requires loopStatus <= 9
    reads slot`loco, slot`functions, slot`consist, slot.consist`loco, slot.consist`consistReverse
    reads slot`speedCode, slot`targetSpeed, slot`momentumBase
  {
    if loopStatus % 2 == 1 then [FunctionAct(slot.loco, slot.functions, loopStatus / 2 + 1)]
    else Orders(slot.consist, Momentum.Remind(s, RampOf(slot), now).speed)
  }

  /** What reminding a slot makes of the speed of slot `m`, and of the time of the last change. */
  ghost function Reminded(m: LocoSlot, slot: LocoSlot, loopStatus: nat, s: Momentum.Settings, now: nat): (byte, nat)
    reads m`speedCode, m`momentumBase, slot`consist, slot`speedCode, slot`targetSpeed, slot`momentumBase
  {
    if loopStatus % 2 == 1 then (m.speedCode, m.momentumBase)
    else
      var ramp := Momentum.Remind(s, RampOf(slot), now);
      (if m in slot.consist then ramp.speed else m.speedCode, if m == slot then ramp.base else m.momentumBase)
  }

  function FunctionAct(loco: uint16, f: LocoFunctions.Functions, group: nat): Act
    requires 1 <= group <= 5
  {
    EstopLock.Other(PacketQueue.Op.Function(LocoFunctions.FunctionPacket(loco, f, group), loco, group))
  }

  lemma FunctionsAreAllowed(loco: uint16, f: LocoFunctions.Functions, group: nat)
    requires 1 <= group <= 5
    ensures AllAllowed([FunctionAct(loco, f, group)])
  {
    LocoFunctions.FunctionsDoNotMove(loco, f, group);
  }

  /** Whatever these operations do under the emergency stop lock, every speed packet in the
      high-priority queue is an emergency stop. */
  lemma LockCoversThem(s: EstopLock.Station, acts: seq<Act>)
    requires !s.locked && PacketRules.Coalesced(s.q) && AllAllowed(acts)
    ensures var t := EstopLock.DoAll(EstopLock.Lock(s, true), acts); t.locked && EstopLock.AllStopped(t.q)
  {
    EstopLock.LockHolds(s, acts);
  }

  function CodeOf(tSpeed: byte, tDirection: bool): byte {
    tSpeed % 128 + (if tDirection then 128 else 0)
  }

  /** No slot has a new speed, or a new target. */
  twostate predicate Undriven(nodes: set<LocoSlot>)
    reads nodes
  {
    forall m | m in nodes ::
      m.speedCode == old(m.speedCode) && m.targetSpeed == old(m.targetSpeed) && m.momentumBase == old(m.momentumBase)
  }

  /** A new target takes effect at once, in the whole consist, unless momentum leaves that to the reminders. */
  twostate predicate Driven(slot: LocoSlot, nodes: set<LocoSlot>, code: byte, estop: bool, s: Momentum.Settings,
                            now: nat, before: seq<Act>, after: seq<Act>)
    reads slot, nodes, slot.consist
  {
    if Momentum.GetMomentum(s, Momentum.Ramp(old(slot.speedCode), code, old(slot.momentumBase))) != 0 && !estop then
      && slot.momentumBase == now && after == before
      && forall m | m in nodes :: m.speedCode == old(m.speedCode)
    else
      && slot.momentumBase == old(slot.momentumBase) && after == before + Orders(slot.consist, code)
      && forall m | m in nodes :: m.speedCode == if m in slot.consist then code else old(m.speedCode)
  }

  /** What a throttle command does once the slot is known: nothing for a follower or for the target it has. */
  twostate predicate Commanded(slot: LocoSlot, nodes: set<LocoSlot>, code: byte, estop: bool, s: Momentum.Settings,
                               now: nat, before: seq<Act>, after: seq<Act>)
    reads slot, nodes, slot.consist
  {
    if slot.IsConsistFollower() || old(slot.targetSpeed) == code then Undriven(nodes) && after == before
    else
      && (forall m | m in nodes :: m.targetSpeed == TargetOf(m, slot, code, old(m.targetSpeed)))
      && Driven(slot, nodes, code, estop, s, now, before, after)
  }

  /** What a throttle command does for a loco that has just got a slot: nothing if it is to stand, and otherwise it is
      driven at once, unless momentum leaves that to the reminders. */
  ghost predicate Started(slot: LocoSlot, code: byte, estop: bool, s: Momentum.Settings, now: nat,
                          before: seq<Act>, after: seq<Act>)
    reads slot
  {
    && slot.targetSpeed == code
    && (slot.speedCode, slot.momentumBase, after) ==
       if code == 128 then (128, 0, before)
       else if Momentum.GetMomentum(s, Momentum.Ramp(128, code, 0)) != 0 && !estop then (128, now, before)
       else (code, 0, before + [EstopLock.Drive(slot.loco, false, code)])
  }

  lemma OneOrder(slot: LocoSlot, code: byte)
    ensures slot.consist == [slot] ==>
      Orders(slot.consist, code) == [EstopLock.Drive(slot.loco, slot.consistReverse, code)]
  {
  }

  /** All slots are to stop in the direction they have. */
  twostate predicate AllHalted(nodes: set<LocoSlot>)
    reads nodes
  {
    forall m | m in nodes :: m.speedCode == m.targetSpeed == Halted(old(m.targetSpeed))
  }

  function Halted(speed: byte): byte {
    speed / 128 * 128 + 1
  }

  lemma OnlySlot(slot: LocoSlot, nodes: set<LocoSlot>)
    requires Distinct(nodes) && slot in nodes
    ensures forall s | s in nodes && s.loco == slot.loco :: s == slot
  {
  }

  lemma Follows(s: LocoSlot, nodes: set<LocoSlot>)
    requires Grouped(nodes) && s in nodes
    ensures s.IsConsistFollower() <==> s.place > 0
    ensures s.consist != [] && (|s.consist| == 1 ==> s.Solo())
  {
    Roles(s);
  }

  /** The target that a loco has once `lead` has been given a new one. */
  ghost function TargetOf(m: LocoSlot, lead: LocoSlot, speedCode: byte, was: byte): byte
    reads m`consistReverse, lead`consist
  {
    if m == lead then speedCode else if m in lead.consist then Flipped(speedCode, m.consistReverse) else was
  }

  /** `speedCode ^ 0x80` for a loco that faces the other way. */
  function Flipped(speedCode: byte, reversed: bool): byte {
    if reversed then (speedCode + 128) % 256 else speedCode
  }

  lemma InGroup(slot: LocoSlot, nodes: set<LocoSlot>)
    requires Grouped(nodes) && slot in nodes
    ensures slot.Agreed() && slot.Placed() && Inside(slot, nodes)
  {
  }

  /** The orders before, and the first `n` of some more. */
  ghost function Recorded(before: seq<Act>, all: seq<Act>, n: nat): seq<Act>
    requires n <= |all|
  {
    before + all[..n]
  }

  lemma RecordedOne(before: seq<Act>, all: seq<Act>, n: nat)
    requires n < |all|
    ensures Recorded(before, all, n + 1) == Recorded(before, all, n) + [all[n]]
  {
  }

  lemma RecordedAll(before: seq<Act>, all: seq<Act>)
    ensures Recorded(before, all, 0) == before && Recorded(before, all, |all|) == before + all
  {
  }

  lemma AllPlaced(slot: LocoSlot, nodes: set<LocoSlot>)
    requires Grouped(nodes) && slot in nodes
    ensures forall s | s in slot.consist :: s.Placed() && s in nodes
  {
    assert Inside(slot, nodes);
  }

  /** Which order a member of a consist gets. */
  lemma OrderOf(slot: LocoSlot, code: byte)
    requires slot.Agreed() && slot.place < |slot.consist|
    ensures forall s | s in slot.consist && s.consist == slot.consist && slot.place <= s.place < |s.consist| ::
      Orders(slot.consist[slot.place..], code)[s.place - slot.place] == EstopLock.Drive(s.loco, s.consistReverse, code)
  {
    hide Orders;
    MembersAgree(slot);
    forall s | s in slot.consist && slot.place <= s.place
      ensures Orders(slot.consist[slot.place..], code)[s.place - slot.place]
        == EstopLock.Drive(s.loco, s.consistReverse, code)
    {
      assert slot.consist[slot.place..][s.place - slot.place] == s;
    }
  }

  lemma DrivesAreAllowed(acts: seq<Act>, more: seq<Act>)
    requires AllAllowed(acts) && forall k | 0 <= k < |more| :: more[k].Drive?
    ensures AllAllowed(acts + more)
  {
  }

  /** Each member of a consist gets exactly one order, turned round if it faces the other way. */
  lemma OncePerMember(lead: LocoSlot, nodes: set<LocoSlot>, code: byte)
    requires Grouped(nodes) && Distinct(nodes) && lead in nodes
    ensures var r := Orders(lead.consist, code);
      && (forall i, j | 0 <= i < j < |r| :: r[i].cab != r[j].cab)
      && (forall s | s in nodes && s in lead.consist :: EstopLock.Drive(s.loco, s.consistReverse, code) in r)
      && (forall i | 0 <= i < |r| :: lead.consist[i] in nodes && r[i].cab == lead.consist[i].loco)
  {
    hide LocoSlot.Placed;
    MembersAgree(lead);
    assert Inside(lead, nodes);
    var r := Orders(lead.consist, code);
    forall i, j | 0 <= i < j < |r|
      ensures r[i].cab != r[j].cab
    {
      assert lead.consist[i].place != lead.consist[j].place;
    }
    forall s | s in nodes && s in lead.consist
      ensures EstopLock.Drive(s.loco, s.consistReverse, code) in r
    {
      assert r[s.place] == EstopLock.Drive(s.loco, s.consistReverse, code);
    }
  }

  /** The packet of a reminder is an emergency stop if and only if the ramp steps on a stop code, for every member of
      the consist and whichever way it faces. */
  lemma ReminderIsStop(cab: uint16, reversed: bool, steps: byte, s: Momentum.Settings, r: Momentum.Ramp, now: nat)
    ensures var code := Flipped(Momentum.Remind(s, r, now).speed, reversed);
      DccPackets.MotionOf(DccPackets.SpeedPacket(cab, code, steps)) == DccPackets.EmergencyStop
      <==> Momentum.StepsOnStop(s, r, now)
  {
    hide Momentum.Remind, Momentum.StepsOnStop;
    DccPackets.EstopIsEstop(cab, Flipped(Momentum.Remind(s, r, now).speed, reversed), steps);
    Momentum.StopIsOnTheWay(s, r, now);
  }

  /** What the members of a consist are told by its orders: the same speed, each in the direction that takes it
      the way of the lead; and that is what is sent for each. */
  lemma MembersPullTogether(s: EstopLock.Station, lead: LocoSlot, nodes: set<LocoSlot>, code: byte, k: nat,
      more: seq<PacketQueue.Op>)
    requires Grouped(nodes) && Distinct(nodes) && lead in nodes && k < |lead.consist| && lead.consist[k].loco <= 10239
    requires PacketRules.Fresh(s.q) && PacketRules.Coalesced(s.q)
    ensures var m := lead.consist[k];
      var order := EstopLock.Drive(m.loco, m.consistReverse, code);
      && Orders(lead.consist, code)[k] == order
      && var t := EstopLock.Do(s, order).q;
         && EstopLock.TagIsThere(t, s.q.next)
         && (forall i | 0 <= i < |t.high| && t.high[i].tag == s.q.next ::
               EstopLock.IsToldTo(t.high[i].packet, s, m.loco, m.consistReverse, code))
         && var log := PacketQueue.Run(t, more).log;
            forall i | 0 <= i < |log| && log[i].tag == s.q.next ::
              EstopLock.IsToldTo(log[i].packet, s, m.loco, m.consistReverse, code)
  {
    hide LocoSlot.Placed, Grouped, Distinct, PacketRules.Fresh, PacketRules.Coalesced, EstopLock.IsToldTo, EstopLock.Do;
    var m := lead.consist[k];
    EstopLock.DriveIsQueued(s, m.loco, m.consistReverse, code);
    EstopLock.DriveIsSent(s, m.loco, m.consistReverse, code, more);
  }

  /** The codes that throttle commands, stops and followers get: the speed that was asked for and its direction; a
      stop in the old direction; and the same speed the other way round. */
  lemma CodesAreMeant(tSpeed: byte, tDirection: bool, speed: byte, reversed: bool)
    ensures var c := CodeOf(tSpeed, tDirection); c % 128 == tSpeed % 128 && (c >= 128) == tDirection
    ensures var h := Halted(speed); h % 128 == 1 && (h >= 128) == (speed >= 128)
    ensures var f := Flipped(speed, reversed); f % 128 == speed % 128 && (f >= 128) == ((speed >= 128) != reversed)
  {
  }

  /** Main result from the throttle to the rails: what is sent for a member of a consist when a throttle command
      drives it is an order for that loco with the commanded speed, forward if the command says so and it faces
      the way of its consist, or neither. */
  lemma ThrottleIsHeard(s: EstopLock.Station, tSpeed: byte, tDirection: bool, cab: uint16, reversed: bool,
      more: seq<PacketQueue.Op>, i: nat)
    requires PacketRules.Fresh(s.q) && PacketRules.Coalesced(s.q) && !s.locked && cab <= 10239
    requires var log :=
        PacketQueue.Run(EstopLock.Do(s, EstopLock.Drive(cab, reversed, CodeOf(tSpeed, tDirection))).q, more).log;
      i < |log| && log[i].tag == s.q.next
    ensures var log :=
        PacketQueue.Run(EstopLock.Do(s, EstopLock.Drive(cab, reversed, CodeOf(tSpeed, tDirection))).q, more).log;
      var o := DccPackets.OrderOf(log[i].packet);
      && o.Go? && o.cab == cab && o.forward == (tDirection != reversed)
      && DccPackets.Means(tSpeed % 128, s.steps, o.speed)
  {
    CodesAreMeant(tSpeed, tDirection, 0, false);
    hide EstopLock.Do, PacketRules.Fresh, PacketRules.Coalesced, CodeOf, DccPackets.OrderOf, DccPackets.Means;
    EstopLock.DriveIsSent(s, cab, reversed, CodeOf(tSpeed, tDirection), more);
  }

  // ---------- What reminders tell ----------

  /** In one of the ten loop states a slot is reminded of any function of its that is on, and the decoder of the
      loco hears that it is. */
  lemma FunctionsAreReminded(slot: LocoSlot, n: nat, s: Momentum.Settings, now: nat) returns (state: nat)
    requires n <= 28 && slot.loco <= 10239
    requires LocoFunctions.Covered(slot.functions) && Bit(slot.functions.map32, n)
    ensures state in {1, 3, 5, 7, 9} && Calls(slot, state)
    ensures var r := Reminder(slot, state, s, now);
      && |r| == 1 && r[0].Other?
      && var h := DccPackets.HeardBy(r[0].op.packet);
         h.ForLoco? && h.cab == slot.loco && LocoFunctions.Tells(h.instruction, n) == LocoFunctions.Told(true)
  {
    state := 2 * LocoFunctions.Group(n) - 1;
    hide DccPackets.HeardBy, LocoFunctions.Tells, LocoFunctions.FunctionPacket, Bit, Momentum.Remind;
    LocoFunctions.ReminderIsHeard(slot.loco, slot.functions, LocoFunctions.Group(n), n);
  }

  /** In the odd states a loco is told of no function anything else than what its slot says, and no speed changes. */
  lemma RemindersAreTrue(slot: LocoSlot, state: nat, n: nat, s: Momentum.Settings, now: nat, m: LocoSlot)
    requires state in {1, 3, 5, 7, 9} && n <= 28 && slot.loco <= 10239
    ensures var r := Reminder(slot, state, s, now);
      && |r| == 1 && r[0].Other?
      && var h := DccPackets.HeardBy(r[0].op.packet);
         && h.ForLoco? && h.cab == slot.loco
         && LocoFunctions.Tells(h.instruction, n) in
              {LocoFunctions.NotTold, LocoFunctions.Told(Bit(slot.functions.map32, n))}
    ensures Reminded(m, slot, state, s, now) == (m.speedCode, m.momentumBase)
  {
    hide DccPackets.HeardBy, LocoFunctions.Tells, LocoFunctions.FunctionPacket, Bit, Momentum.Remind;
    LocoFunctions.ReminderIsHeard(slot.loco, slot.functions, state / 2 + 1, n);
  }

  /** In every even state each slot that follows nobody takes one step of its ramp, and every member of its consist,
      and nobody else, is told the speed that its slot has then. */
  lemma SpeedsAreReminded(slot: LocoSlot, state: nat, s: Momentum.Settings, now: nat, nodes: set<LocoSlot>)
    requires Grouped(nodes) && slot in nodes && state in {0, 2, 4, 6, 8}
    ensures Calls(slot, state) <==> slot.place == 0
    ensures var (speed, base) := Reminded(slot, slot, state, s, now);
      Momentum.Ramp(speed, slot.targetSpeed, base) == Momentum.Remind(s, RampOf(slot), now)
    ensures var r := Reminder(slot, state, s, now);
      && |r| == |slot.consist|
      && forall k | 0 <= k < |r| ::
           var m := slot.consist[k];
           r[k] == EstopLock.Drive(m.loco, m.consistReverse, Reminded(m, slot, state, s, now).0)
    ensures forall m | m in nodes && m !in slot.consist ::
      Reminded(m, slot, state, s, now) == (m.speedCode, m.momentumBase)
  {
    hide Momentum.Remind, Chain, Distinct;
    Follows(slot, nodes);
    InGroup(slot, nodes);
    RampStays(s, RampOf(slot), now);
  }

  lemma RampStays(s: Momentum.Settings, r: Momentum.Ramp, now: nat)
    ensures Momentum.Remind(s, r, now).target == r.target
  {
    Momentum.RemindApproaches(s, r, now);
  }

  /** The target that a throttle command gives each loco of the consist is what its decoder is told, as if it was
      on its own; nobody else gets one. */
  lemma TargetsAreDriven(lead: LocoSlot, m: LocoSlot, code: byte, was: byte)
    ensures var t := TargetOf(m, lead, code, was);
      if m in lead.consist && m != lead then
        t % 128 == code % 128 && (t >= 128) == ((code >= 128) != m.consistReverse)
      else t == if m == lead then code else was
  {
    CodesAreMeant(0, false, code, m.consistReverse);
    hide Flipped;
  }

  // ---------- After a consist ----------

  lemma TurnsRound(slot: LocoSlot, code: byte, s: Momentum.Settings, now: nat)
    requires slot.speedCode == code && slot.targetSpeed == Flipped(code, true)
    ensures var t := Momentum.Remind(s, RampOf(slot), now).speed;
      (t >= 128) == (Flipped(code, true) >= 128) <==> Momentum.Ticks(s, RampOf(slot), now) > code % 128
  {
    Momentum.TurnsRound(s, RampOf(slot), now);
  }

  /** A loco that was driven the other way round in a consist that has been dissolved: its slot has the speed of the
      consist, and its own as its target.  Its next reminder tells it to go on in its direction if and only if more
      notches are due than its speed; and without momentum it goes on as it did. */
  lemma OutOfConsist(slot: LocoSlot, code: byte, state: nat, s: Momentum.Settings, now: nat)
    requires slot.Solo() && !slot.consistReverse && state in {0, 2, 4, 6, 8}
    requires slot.speedCode == code && slot.targetSpeed == Flipped(code, true)
    ensures var r := Reminder(slot, state, s, now);
      && |r| == 1 && r[0].Drive? && r[0].cab == slot.loco && !r[0].reversed
      && ((r[0].speedCode >= 128) == (Flipped(code, true) >= 128)
          <==> Momentum.Ticks(s, RampOf(slot), now) > code % 128)
      && (Momentum.GetMomentum(s, RampOf(slot)) == 0 ==> r[0].speedCode == Flipped(code, true))
  {
    hide Momentum.Remind, Momentum.Ticks, Momentum.GetMomentum, Momentum.Normalize, Orders;
    OneOrder(slot, Momentum.Remind(s, RampOf(slot), now).speed);
    TurnsRound(slot, code, s, now);
    Momentum.NotchesDue(s, RampOf(slot), now);
  }
}

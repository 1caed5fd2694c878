/** Tasks that share the flags of EXRAIL2.cpp: RESERVE and IFRESERVE keep them out of each other's sections. */
module ExrailSections {
  import opened Bytes
  import opened ExrailScript
  import opened ExrailVm
  import opened ExrailTimer
  import F = ExrailFlags

  const FREE: byte := 12
  const FREEALL: byte := 131
  const LATCH: byte := 21
  const UNLATCH: byte := 22
  const IFRESERVE: byte := 150

  /** Which task has taken a section, and when sections were let go. */
  datatype Note = Took(task: nat, id: nat) | Left(id: nat) | LeftAll

  /** The flags, all tasks that have been created, and what happened to sections. */
  datatype World = World(flags: F.Flags, tasks: seq<Timed>, log: seq<Note>)

  /** A call of loop2 for a task, with what it sees apart from sections; a task is created; or a command or something
      else changes flags. */
  datatype Event =
    | Serve(task: nat, now: nat, free: bool, micros: nat, outcome: nat -> bool)
    | Create(x: Timed)
    | Flag(op: F.Op)

  /** What a task sees: a RESERVE whether its section is free, and others what there is. */
  function Seen(w: World, e: Event): Look
    requires e.Serve? && e.task < |w.tasks|
  {
    var t := w.tasks[e.task].task;
    if HasInstr(t.code) && t.code[0] == RESERVE then Look(e.now, F.Succeeds(w.flags, Operand(t.code)), e.micros)
    else Look(e.now, e.free, e.micros)
  }

  /** How conditions turn out: an IFRESERVE does its block if its section is free. */
  function Outcome(w: World, e: Event): nat -> bool
    requires e.Serve? && e.task < |w.tasks|
  {
    var t := w.tasks[e.task].task;
    if HasInstr(t.code) && t.code[0] == IFRESERVE then (n: nat) => F.Succeeds(w.flags, Operand(t.code)) else e.outcome
  }

  /** What an instruction that a task gets past does to the flags, and what that means. */
  function Touches(op: byte, arg: word): seq<F.Op> {
    if op == RESERVE || op == IFRESERVE then [F.Reserve(arg)]
    else if op == FREE then [F.Free(arg)]
    else if op == FREEALL then [F.FreeAll]
    else if op == LATCH then [F.Latch(arg)]
    else if op == UNLATCH then [F.Unlatch(arg)]
    else []
  }

  function Noted(flags: F.Flags, op: F.Op, task: nat): seq<Note> {
    match op
    case Reserve(id) => if F.Succeeds(flags, id) then [Took(task, id)] else []
    case Free(id) => [Left(id)]
    case FreeAll => [LeftAll]
    case _ => []
  }

  /** One flag operation of a task, or of nobody (task 0 of none). */
  function Touch(w: World, op: F.Op, task: nat): World {
    w.(flags := F.Apply(w.flags, op), log := w.log + Noted(w.flags, op, task))
  }

  function Do(w: World, route: seq<byte>, e: Event): World {
    match e
    case Create(x) => w.(tasks := w.tasks + [x])
    case Flag(op) => Touch(w, op, |w.tasks|)
    case Serve(k, _, _, _, _) =>
      if k >= |w.tasks| then w
      else
        var x, i := w.tasks[k], Seen(w, e);
        var v := w.(tasks := w.tasks[k := Loop2(route, x, Outcome(w, e), i)]);
        if Sleeping(x, i.now) || !x.task.alive || !HasInstr(x.task.code) || !Ready(x, i) then v
        else
          var ops := Touches(x.task.code[0], Operand(x.task.code));
          if ops == [] then v else Touch(v, ops[0], k)
  }

  function Run(w: World, route: seq<byte>, events: seq<Event>): World {
    if events == [] then w else Do(Run(w, route, events[..|events| - 1]), route, events[|events| - 1])
  }

  /** Somebody has taken this section, and it has not been let go since. */
  predicate Held(log: seq<Note>, id: nat) {
    if log == [] then false
    else
      match log[|log| - 1]
      case Took(_, n) => n == id || Held(log[..|log| - 1], id)
      case Left(n) => n != id && Held(log[..|log| - 1], id)
      case LeftAll => false
  }

  /** Nobody has taken a section that was held. */
  ghost predicate Exclusive(log: seq<Note>) {
    forall k | 0 <= k < |log| && log[k].Took? && log[k].id < F.MAX_FLAGS :: !Held(log[..k], log[k].id)
  }

  /** The flags say which sections are held. */
  ghost predicate Flagged(w: World) {
    forall id: nat | id < F.MAX_FLAGS :: Held(w.log, id) <==> !F.Succeeds(w.flags, id)
  }

  lemma HeldOne(log: seq<Note>, n: Note, id: nat)
    ensures Held(log + [n], id) ==
      match n
      case Took(_, m) => m == id || Held(log, id)
      case Left(m) => m != id && Held(log, id)
      case LeftAll => false
  {
    assert (log + [n])[..|log|] == log;
  }

  lemma ExclusiveOne(log: seq<Note>, n: Note)
    requires Exclusive(log) && (n.Took? && n.id < F.MAX_FLAGS ==> !Held(log, n.id))
    ensures Exclusive(log + [n])
  {
    var more := log + [n];
    forall k | 0 <= k < |more| && more[k].Took? && more[k].id < F.MAX_FLAGS ensures !Held(more[..k], more[k].id) {
      assert more[..k] == log[..k];
      assert k == |log| ==> log[..k] == log;
    }
  }

  lemma TouchKeeps(w: World, op: F.Op, task: nat)
    requires Flagged(w) && Exclusive(w.log)
    ensures Flagged(Touch(w, op, task)) && Exclusive(Touch(w, op, task).log)
  {
    hide F.Apply, F.GetFlag, Held;
    var v := Touch(w, op, task);
    var notes := Noted(w.flags, op, task);
    if notes == [] {
      assert v.log == w.log;
    } else {
      assert notes == [notes[0]];
      ExclusiveOne(w.log, notes[0]);
    }
    forall id: nat | id < F.MAX_FLAGS ensures Held(v.log, id) <==> !F.Succeeds(v.flags, id) {
      if notes != [] {
        HeldOne(w.log, notes[0], id);
      }
      F.OwnFlagsOnly(w.flags, op, id, F.Red);
    }
  }

  lemma BeginsFree()
    ensures var w := World(seq(F.MAX_FLAGS, _ => 0), [], []); Flagged(w) && Exclusive(w.log)
  {
    assert (0 as bv8) & F.SECTION_FLAG == 0;
  }

  lemma {:induction false} RunKeeps(w: World, route: seq<byte>, events: seq<Event>)
    requires Flagged(w) && Exclusive(w.log)
    ensures Flagged(Run(w, route, events)) && Exclusive(Run(w, route, events).log)
    decreases |events|
  {
    if events != [] {
      hide Flagged, Exclusive, Touch, Loop2, Ready;
      var before, e := Run(w, route, events[..|events| - 1]), events[|events| - 1];
      RunKeeps(w, route, events[..|events| - 1]);
      DoKeeps(before, route, e);
    }
  }

  lemma DoKeeps(w: World, route: seq<byte>, e: Event)
    requires Flagged(w) && Exclusive(w.log)
    ensures Flagged(Do(w, route, e)) && Exclusive(Do(w, route, e).log)
  {
    hide Held, Touch, Loop2, Ready, Touches, Exclusive;
    if e.Flag? {
      TouchKeeps(w, e.op, |w.tasks|);
    } else if e.Serve? && e.task < |w.tasks| {
      var x := w.tasks[e.task];
      var v := w.(tasks := w.tasks[e.task := Loop2(route, x, Outcome(w, e), Seen(w, e))]);
      if HasInstr(x.task.code) && Touches(x.task.code[0], Operand(x.task.code)) != [] {
        TouchKeeps(v, Touches(x.task.code[0], Operand(x.task.code))[0], e.task);
      }
    }
  }

  /** Main result: however many tasks there are and in whatever order they are served, no two of them are in one
      section: a RESERVE or IFRESERVE takes it only if it is not held, that is not taken by anybody since it was
      last let go. */
  lemma NoTwoInOneSection(route: seq<byte>, events: seq<Event>)
    ensures Exclusive(Run(World(seq(F.MAX_FLAGS, _ => 0), [], []), route, events).log)
  {
    BeginsFree();
    RunKeeps(World(seq(F.MAX_FLAGS, _ => 0), [], []), route, events);
  }

  /** Main result: in any run, a task in front of a RESERVE stays there and touches nothing while the section is
      held, and the first call out of sleep after that takes it and goes on. */
  lemma ReserveStops(route: seq<byte>, events: seq<Event>, e: Event)
    requires var w := Run(World(seq(F.MAX_FLAGS, _ => 0), [], []), route, events);
      e.Serve? && e.task < |w.tasks| && At(w.tasks[e.task], RESERVE) && Operand(w.tasks[e.task].task.code) < F.MAX_FLAGS
    ensures var w := Run(World(seq(F.MAX_FLAGS, _ => 0), [], []), route, events);
      var x, v := w.tasks[e.task], Do(w, route, e);
      var id := Operand(x.task.code);
      if Held(w.log, id) || Sleeping(x, e.now) then
        OnlyWaited(x, v.tasks[e.task]) && v.flags == w.flags && v.log == w.log
      else Passed(x, v.tasks[e.task]) && v.log == w.log + [Took(e.task, id)] && !F.Succeeds(v.flags, id)
  {
    var w := Run(World(seq(F.MAX_FLAGS, _ => 0), [], []), route, events);
    BeginsFree();
    RunKeeps(World(seq(F.MAX_FLAGS, _ => 0), [], []), route, events);
    hide Run, Held, Exclusive, F.Apply, F.GetFlag, Active, Loop2;
    var x, id := w.tasks[e.task], Operand(w.tasks[e.task].task.code);
    if Sleeping(x, e.now) {
      SleepIsNothing(route, x, Outcome(w, e), Seen(w, e));
    } else {
      LooksDecide(route, x, Outcome(w, e), Seen(w, e), RESERVE);
    }
    F.ReserveHolds(w.flags, id);
  }

  /** An IFRESERVE does its block if and only if the section was not held, and then takes it. */
  lemma IfReserveTakes(route: seq<byte>, events: seq<Event>, e: Event)
    requires var w := Run(World(seq(F.MAX_FLAGS, _ => 0), [], []), route, events);
      e.Serve? && e.task < |w.tasks| && At(w.tasks[e.task], IFRESERVE) && !Sleeping(w.tasks[e.task], e.now)
      && Operand(w.tasks[e.task].task.code) < F.MAX_FLAGS
    ensures var w := Run(World(seq(F.MAX_FLAGS, _ => 0), [], []), route, events);
      var x, v := w.tasks[e.task], Do(w, route, e);
      var id, free := Operand(x.task.code), !Held(w.log, Operand(x.task.code));
      && v.tasks[e.task].task.trace
        == x.task.trace + [Tested(IFRESERVE, id, PadOperands(x.task.code[3..]), free)]
      && v.log == w.log + (if free then [Took(e.task, id)] else []) && !F.Succeeds(v.flags, id)
      && (free ==> v.tasks[e.task].task.code == x.task.code[3..])
  {
    var w := Run(World(seq(F.MAX_FLAGS, _ => 0), [], []), route, events);
    BeginsFree();
    RunKeeps(World(seq(F.MAX_FLAGS, _ => 0), [], []), route, events);
    hide Run, Held, Exclusive, F.Apply, F.GetFlag, Active, SkipIfBlock, Find, DelayOf;
    F.ReserveHolds(w.flags, Operand(w.tasks[e.task].task.code));
  }

  /** FREE, FREEALL, LATCH and UNLATCH are done at once, and do to sections and latches what they say. */
  lemma ActionsAreDone(w: World, route: seq<byte>, e: Event, op: byte, id: nat)
    requires op in {FREE, FREEALL, LATCH, UNLATCH} && id < F.MAX_FLAGS
    requires e.Serve? && e.task < |w.tasks| && At(w.tasks[e.task], op) && !Sleeping(w.tasks[e.task], e.now)
    ensures var x, v := w.tasks[e.task], Do(w, route, e);
      var mine := Operand(x.task.code) == id;
      && Passed(x, v.tasks[e.task])
      && (F.Succeeds(v.flags, id) <==> F.Succeeds(w.flags, id) || op == FREEALL || (op == FREE && mine))
      && (F.GetFlag(v.flags, id, F.LATCH_FLAG) <==>
            (op == LATCH && mine) || (F.GetFlag(w.flags, id, F.LATCH_FLAG) && !(op == UNLATCH && mine)))
  {
    var x := w.tasks[e.task];
    OthersDoNotWait(route, x, Outcome(w, e), Seen(w, e));
    hide Loop2, F.Apply, F.GetFlag, Noted, Passed;
    F.OwnFlagsOnly(w.flags, Touches(op, Operand(x.task.code))[0], id, F.Red);
  }

  /** A task runs only when it is served, whatever happens to the others, and one that is created is there. */
  lemma OnlyServed(w: World, route: seq<byte>, e: Event)
    ensures var v := Do(w, route, e);
      && |v.tasks| == |w.tasks| + (if e.Create? then 1 else 0)
      && (e.Create? ==> v.tasks[|w.tasks|] == e.x && v.flags == w.flags && v.log == w.log)
      && forall k | 0 <= k < |w.tasks| ::
           v.tasks[k] == if e.Serve? && e.task == k then Loop2(route, w.tasks[k], Outcome(w, e), Seen(w, e))
                         else w.tasks[k]
  {
    hide Loop2, Ready, F.Apply, Touches, Noted;
  }
}

/** The ring of tasks in EXRAIL2.cpp: RMFT2's constructor and destructor, and the flags that hand out
    task ids. */
module ExrailRing {
  import opened ExrailFlags

  class Task {
    var next: Task?
    const taskId: nat
    var loco: nat
    const onEvent: int         // onEventStartPosition: where an ONxxx handler starts, or -1

    constructor (taskId: nat, loco: nat, onEvent: int)
      ensures this.taskId == taskId && this.loco == loco && this.onEvent == onEvent
    {
      this.taskId, this.loco, this.onEvent, next := taskId, loco, onEvent, null;
    }

    /** SETLOCO and READ_LOCO, and with 0 FORGET: from now on the task drives this loco. */
    method SetLoco(loco: nat)
      modifies this`loco
      ensures this.loco == loco
    {
      this.loco := loco;
    }
  }

  /** Distinct tasks, each linked to the next and the last to the first, with `head` as the first. */
  ghost predicate Circle(head: Task?, ring: seq<Task>, nodes: set<Task>)
    reads nodes`next
  {
    && head == (if ring == [] then null else ring[0])
    && (forall i | 0 <= i < |ring| :: ring[i] in nodes)
    && (forall t {:trigger t in ring} | t in nodes :: t in ring)
    && (forall i {:trigger ring[i].next} | 0 <= i < |ring| :: ring[i].next == ring[if i + 1 < |ring| then i + 1 else 0])
    && (forall i, j | 0 <= i < j < |ring| :: ring[i] != ring[j])
  }

  function Rotated<T>(s: seq<T>, k: nat): (r: seq<T>)
    requires k < |s|
    ensures |r| == |s|
    ensures forall i | 0 <= i < |s| :: r[i] == s[if k + i < |s| then k + i else k + i - |s|]
  {
    s[k..] + s[..k]
  }

  /** A circle may be read from any of its members. */
  lemma CircleTurns(head: Task?, ring: seq<Task>, nodes: set<Task>, k: nat)
    requires Circle(head, ring, nodes) && k < |ring|
    ensures Circle(ring[k], Rotated(ring, k), nodes)
  {
    hide Rotated;
    var r := Rotated(ring, k);
    forall i, j | 0 <= i < j < |r|
      ensures r[i] != r[j]
    {
      assert r[i] == ring[if k + i < |ring| then k + i else k + i - |ring|];
    }
    forall i | 0 <= i < |r|
      ensures r[i].next == r[if i + 1 < |r| then i + 1 else 0]
    {
      var j := if k + i < |ring| then k + i else k + i - |ring|;
      assert ring[j].next == ring[if j + 1 < |ring| then j + 1 else 0];
    }
    forall t | t in nodes
      ensures t in r
    {
      assert t in ring;
      var j :| 0 <= j < |ring| && ring[j] == t;
      assert r[if j >= k then j - k else j + |ring| - k] == t;
    }
  }

  /** A task between the first and the second of a circle. */
  lemma Entered(was: seq<Task>, nodes: set<Task>, t: Task)
    requires was != [] && t !in nodes && (forall i | 0 <= i < |was| :: was[i] in nodes)
      && (forall x {:trigger x in was} | x in nodes :: x in was)
    requires forall i, j | 0 <= i < j < |was| :: was[i] != was[j]
    requires was[0].next == t && t.next == was[if 1 < |was| then 1 else 0]
    requires forall i {:trigger was[i].next} | 1 <= i < |was| :: was[i].next == was[if i + 1 < |was| then i + 1 else 0]
    ensures Circle(was[0], [was[0], t] + was[1..], nodes + {t})
  {
    var ring := [was[0], t] + was[1..];
    assert forall i | 2 <= i < |ring| :: ring[i] == was[i - 1];
    forall i, j | 0 <= i < j < |ring|
      ensures ring[i] != ring[j]
    {
      if j >= 2 {
        assert ring[j] == was[j - 1];
        assert i != 1 ==> ring[i] == was[if i == 0 then 0 else i - 1];
      }
    }
    forall x | x in nodes
      ensures x in ring
    {
      assert x in was;
      var j :| 0 <= j < |was| && was[j] == x;
      assert ring[if j == 0 then 0 else j + 1] == x;
    }
    forall i | 0 <= i < |ring|
      ensures ring[i].next == ring[if i + 1 < |ring| then i + 1 else 0]
    {
      if i >= 2 {
        assert was[i - 1].next == was[if i < |was| then i else 0];
      }
    }
  }

  /** A circle whose first task has been taken out. */
  lemma Left(r: seq<Task>, nodes: set<Task>)
    requires r != [] && (forall i | 0 <= i < |r| :: r[i] in nodes)
      && (forall x {:trigger x in r} | x in nodes :: x in r)
    requires forall i, j | 0 <= i < j < |r| :: r[i] != r[j]
    requires forall i {:trigger r[i].next} | 1 <= i < |r| - 1 :: r[i].next == r[i + 1]
    requires |r| > 1 ==> r[|r| - 1].next == r[1]
    ensures Circle(if |r| == 1 then null else r[1], r[1..], nodes - {r[0]})
  {
    var ring := r[1..];
    assert forall i | 0 <= i < |ring| :: ring[i] == r[i + 1];
    forall i | 0 <= i < |ring|
      ensures ring[i].next == ring[if i + 1 < |ring| then i + 1 else 0]
    {
      assert ring[i] == r[i + 1];
    }
    forall x | x in nodes && x != r[0]
      ensures x in ring
    {
      assert x in r;
      var j :| 0 <= j < |r| && r[j] == x;
      assert ring[j - 1] == x;
    }
  }

  /** Each live task owns its id, and TASK_FLAG marks exactly the ids that are owned. */
  ghost predicate Owned(nodes: set<Task>, owners: map<nat, Task>, flags: Flags) {
    && (forall f | f in owners :: f < MAX_FLAGS && owners[f] in nodes && owners[f].taskId == f)
    && (forall t | t in nodes :: t.taskId in owners && owners[t.taskId] == t)
    && (forall f: nat | f < MAX_FLAGS :: GetFlag(flags, f, TASK_FLAG) <==> f in owners)
  }

  function Ids(n: nat): (r: set<nat>)
    ensures |r| == n && forall f: nat :: f in r <==> f < n
  {
    if n == 0 then {} else Ids(n - 1) + {n - 1}
  }

  lemma {:induction false} SubsetIsSmaller(a: set<nat>, b: set<nat>)
    ensures a <= b ==> |a| <= |b|
    decreases |a|
  {
    if a != {} {
      var x :| x in a;
      SubsetIsSmaller(a - {x}, b - {x});
    }
  }

  /** With fewer tasks than ids, some id is free. */
  lemma FreeIdExists(nodes: set<Task>, owners: map<nat, Task>, flags: Flags)
    requires Owned(nodes, owners, flags) && |owners| < MAX_FLAGS
    ensures exists f: nat | f < MAX_FLAGS :: !GetFlag(flags, f, TASK_FLAG)
  {
    hide GetFlag;
    SubsetIsSmaller(Ids(MAX_FLAGS), owners.Keys);
    assert |owners| == |owners.Keys|;
    var f :| f in Ids(MAX_FLAGS) && f !in owners.Keys;
    assert !GetFlag(flags, f, TASK_FLAG);
  }

  lemma TaskMasks(f: bv8)
    ensures ((f & !0) | TASK_FLAG) & TASK_FLAG != 0
    ensures ((f & !TASK_FLAG) | 0) & TASK_FLAG == 0
  {
  }

  /** Setting or clearing a task flag does that and leaves the other task flags alone. */
  lemma SetTask(flags: Flags, id: nat)
    requires id < MAX_FLAGS
    ensures var on := SetFlag(flags, id, TASK_FLAG, 0);
      forall f: nat | f < MAX_FLAGS :: GetFlag(on, f, TASK_FLAG) == (f == id || GetFlag(flags, f, TASK_FLAG))
    ensures var off := SetFlag(flags, id, 0, TASK_FLAG);
      forall f: nat | f < MAX_FLAGS :: GetFlag(off, f, TASK_FLAG) == (f != id && GetFlag(flags, f, TASK_FLAG))
  {
    TaskMasks(flags[id]);
  }

  lemma OwnedBegins(nodes: set<Task>, owners: map<nat, Task>, flags: Flags, t: Task)
    requires Owned(nodes, owners, flags) && t.taskId < MAX_FLAGS && !GetFlag(flags, t.taskId, TASK_FLAG) && t !in nodes
    ensures Owned(nodes + {t}, owners[t.taskId := t], SetFlag(flags, t.taskId, TASK_FLAG, 0))
    ensures |owners[t.taskId := t]| == |owners| + 1
  {
    hide SetFlag, GetFlag;
    SetTask(flags, t.taskId);
    assert owners[t.taskId := t].Keys == owners.Keys + {t.taskId};
  }

  lemma OwnedEnds(nodes: set<Task>, owners: map<nat, Task>, flags: Flags, t: Task)
    requires Owned(nodes, owners, flags) && t in nodes
    ensures Owned(nodes - {t}, owners - {t.taskId}, SetFlag(flags, t.taskId, 0, TASK_FLAG))
    ensures |owners - {t.taskId}| == |owners| - 1
  {
    SetTask(flags, t.taskId);
    hide SetFlag, GetFlag;
    assert (owners - {t.taskId}).Keys == owners.Keys - {t.taskId};
    assert owners.Keys == (owners - {t.taskId}).Keys + {t.taskId};
  }

  // ---------- Who is served ----------

  /** pausingTask: null, a task, or the impossible address that `</ PAUSE>` stores. */
  datatype Pausing<T> = NoOne | Only(task: T) | Everyone

  /** The ring from loopTask on, pausingTask, and all tasks that have been served so far. */
  datatype Machine<T> = Machine(ring: seq<T>, pausing: Pausing<T>, served: seq<T>)

  /** What tasks and commands do to the ring and to pausingTask. */
  datatype Act<T> = Start(t: T) | End(at: nat) | PauseMe | PauseAll | Resume

  /** One call of RMFT2::loop, in which the task that is served, if any, does some acts; or an act of a command. */
  datatype Event<T> = Call(acts: seq<Act<T>>) | Command(act: Act<T>)

  predicate Lets<T(==)>(p: Pausing<T>, t: T) {
    p.NoOne? || p == Only(t)
  }

  /** The ring after a call of loop. */
  function Turned<T>(ring: seq<T>): (r: seq<T>)
    ensures |r| == |ring|
  {
    if ring == [] then [] else ring[1..] + [ring[0]]
  }

  function Do<T>(m: Machine<T>, act: Act<T>): Machine<T> {
    match act
    case Start(t) => m.(ring := if m.ring == [] then [t] else [m.ring[0], t] + m.ring[1..])
    case End(at) => if at < |m.ring| then m.(ring := Rotated(m.ring, at)[1..]) else m
    case PauseMe => if m.ring == [] then m else m.(pausing := Only(m.ring[0]))
    case PauseAll => m.(pausing := Everyone)
    case Resume => m.(pausing := NoOne)
  }

  function DoAll<T>(m: Machine<T>, acts: seq<Act<T>>): Machine<T>
    decreases |acts|
  {
    if acts == [] then m else DoAll(Do(m, acts[0]), acts[1..])
  }

  function Step<T(==)>(m: Machine<T>, e: Event<T>): Machine<T> {
    match e
    case Call(acts) =>
      var ring := Turned(m.ring);
      if ring == [] then m
      else if Lets(m.pausing, ring[0]) then DoAll(Machine(ring, m.pausing, m.served + [ring[0]]), acts)
      else m.(ring := ring)
    case Command(act) => Do(m, act)
  }

  function Run<T(==)>(m: Machine<T>, events: seq<Event<T>>): Machine<T> {
    if events == [] then m else Step(Run(m, events[..|events| - 1]), events[|events| - 1])
  }

  /** pausingTask is not null and is no task of the ring. */
  predicate Frozen<T(==)>(m: Machine<T>) {
    m.pausing.Everyone? || (m.pausing.Only? && m.pausing.task !in m.ring)
  }

  /** Acts of commands that may end that: RESUME, and a new task at the address of the one that paused. */
  predicate Thaws<T(==)>(p: Pausing<T>, act: Act<T>) {
    act.Resume? || act.PauseMe? || (act.Start? && p == Only(act.t))
  }

  /** Once pausingTask is no task of the ring, no task is ever served again, whatever is started, ended or paused,
      until a command resumes. */
  lemma {:induction false} FrozenForGood<T>(m: Machine<T>, events: seq<Event<T>>)
    requires Frozen(m)
    requires forall k | 0 <= k < |events| && events[k].Command? :: !Thaws(m.pausing, events[k].act)
    ensures var t := Run(m, events); Frozen(t) && t.served == m.served && t.pausing in {m.pausing, Everyone}
    decreases |events|
  {
    hide Step, Frozen, Thaws;
    if events != [] {
      FrozenForGood(m, events[..|events| - 1]);
      FrozenStays(Run(m, events[..|events| - 1]), m.pausing, events[|events| - 1]);
    }
  }

  lemma FrozenStays<T>(m: Machine<T>, p: Pausing<T>, e: Event<T>)
    requires Frozen(m) && m.pausing in {p, Everyone} && (e.Command? ==> !Thaws(p, e.act))
    ensures var t := Step(m, e); Frozen(t) && t.served == m.served && t.pausing in {p, Everyone}
  {
    hide DoAll;
    if e.Command? && e.act.End? && e.act.at < |m.ring| {
      var r := Rotated(m.ring, e.act.at);
      assert forall t | t in r[1..] :: t in r;
    }
  }

  /** The only task that may end so that the others are frozen is the one that paused them. */
  lemma EndFreezes<T>(m: Machine<T>, at: nat)
    requires at < |m.ring| && !Frozen(m)
    requires forall i, j | 0 <= i < j < |m.ring| :: m.ring[i] != m.ring[j]
    ensures Frozen(Do(m, End(at))) <==> m.pausing == Only(m.ring[at])
  {
    var r := Rotated(m.ring, at);
    forall t | t in m.ring && t != m.ring[at] ensures t in r[1..] {
      var j :| 0 <= j < |m.ring| && m.ring[j] == t;
      assert r[if j >= at then j - at else j + |m.ring| - at] == t;
    }
  }

  /** A new task is the next to be served, and all others follow in their old order. */
  lemma StartedIsNext<T>(m: Machine<T>, t: T)
    requires m.pausing.NoOne?
    ensures var n := Step(Do(m, Start(t)), Call([]));
      && n.served == m.served + [t]
      && (m.ring != [] ==> n.ring == [t] + m.ring[1..] + [m.ring[0]]) && (m.ring == [] ==> n.ring == [t])
  {
  }

  /** When a task ends all others stay in their order, but the one behind it has to wait for its next turn. */
  lemma EndSkipsOne<T>(m: Machine<T>, at: nat)
    requires m.pausing.NoOne? && at < |m.ring| && |m.ring| > 2
    ensures var n, k := Do(m, End(at)), at + 2;
      && n.ring == m.ring[at + 1..] + m.ring[..at]
      && Step(n, Call([])).served == m.served + [m.ring[if k < |m.ring| then k else k - |m.ring|]]
  {
  }

  /** The statics of RMFT2. */
  class Exrail {
    var loopTask: Task?
    var pausingTask: Pausing<Task>
    const flags: array<bv8>
    ghost var ring: seq<Task>             // from loopTask on
    ghost var nodes: set<Task>
    ghost var owners: map<nat, Task>
    ghost var crowded: bool               // there has been a task without an id of its own
    ghost var stops: seq<nat>             // the locos that ended tasks have stopped
    ghost var served: seq<Task>           // the tasks whose loop2 has been called

    ghost predicate Valid()
      reads this, flags, nodes
    {
      && flags.Length == MAX_FLAGS
      && Circle(loopTask, ring, nodes)
      && (!crowded ==> Owned(nodes, owners, flags[..]) && |owners| == |ring|)
    }

    ghost function Now(): Machine<Task>
      reads this
    {
      Machine(ring, pausingTask, served)
    }

    constructor ()
      ensures Valid() && Now() == Machine([], NoOne, []) && !crowded && fresh(flags)
    {
      loopTask, pausingTask := null, NoOne;
      flags := new bv8[MAX_FLAGS](_ => 0);
      ring, nodes, owners, crowded, stops, served := [], {}, map[], false, [], [];
    }

    /** The search of the constructor for an unused id; 255 if there is none. */
    method FindId() returns (taskId: nat)
      requires Valid()
      ensures taskId < MAX_FLAGS
      ensures !crowded && |ring| < MAX_FLAGS ==> !GetFlag(flags[..], taskId, TASK_FLAG)
    {
      hide GetFlag, Circle;
      if !crowded && |ring| < MAX_FLAGS {
        FreeIdExists(nodes, owners, flags[..]);
      }
      taskId := 255;
      var f := 0;
      while f < MAX_FLAGS
        invariant f <= MAX_FLAGS
        invariant forall g: nat | g < f :: GetFlag(flags[..], g, TASK_FLAG)
      {
        var used := IsSet(f, TASK_FLAG);
        if !used {
          taskId := f;
          break;
        }
        f := f + 1;
      }
    }

    /** RMFT2::getFlag */
    method IsSet(id: nat, mask: bv8) returns (b: bool)
      requires flags.Length == MAX_FLAGS
      ensures b == GetFlag(flags[..], id, mask)
    {
      if id >= MAX_FLAGS { return false; }
      return flags[id] & mask != 0;
    }

    /** RMFT2::setFlag */
    method Mark(id: nat, onMask: bv8, offMask: bv8)
      requires flags.Length == MAX_FLAGS
      modifies flags
      ensures flags[..] == SetFlag(old(flags[..]), id, onMask, offMask)
    {
      if id >= MAX_FLAGS { return; }
      flags[id] := (flags[id] & !offMask) | onMask;
    }

    /** Chain into the ring, behind the task that runs now. */
    method Enter(t: Task)
      requires Circle(loopTask, ring, nodes) && t !in nodes
      modifies this`loopTask, this`ring, this`nodes, nodes`next, t`next
      ensures Circle(loopTask, ring, nodes) && nodes == old(nodes) + {t}
      ensures ring == if old(ring) == [] then [t] else [old(ring)[0], t] + old(ring)[1..]
    {
      if loopTask == null {
        loopTask := t;
        t.next := t;
        ring, nodes := [t], nodes + {t};
      } else {
        ghost var was, all := ring, nodes;
        t.next := loopTask.next;
        loopTask.next := t;
        ring, nodes := [was[0], t] + was[1..], nodes + {t};
        hide Circle;
        Entered(was, all, t);
      }
    }

    /** The flag of a new task. */
    method Register(t: Task)
      requires Valid() && t.taskId < MAX_FLAGS && t !in nodes
      requires !crowded && |ring| < MAX_FLAGS ==> !GetFlag(flags[..], t.taskId, TASK_FLAG)
      modifies this`owners, this`crowded, flags
      ensures Circle(loopTask, ring, nodes) && flags.Length == MAX_FLAGS
      ensures crowded == (old(crowded) || |ring| >= MAX_FLAGS)
      ensures flags[..] == SetFlag(old(flags[..]), t.taskId, TASK_FLAG, 0)
      ensures !crowded ==> Owned(nodes + {t}, owners, flags[..]) && |owners| == |ring| + 1
    {
      hide Circle, GetFlag, Owned, SetFlag;
      crowded := crowded || |ring| >= MAX_FLAGS;
      if !crowded {
        OwnedBegins(nodes, owners, flags[..], t);
        owners := owners[t.taskId := t];
      }
      Mark(t.taskId, TASK_FLAG, 0);
    }

    /** new RMFT2(...): there is one task more, with an id of its own as long as there are at most 256. */
    method Create(loco: nat, onEvent: int) returns (t: Task)
      requires Valid()
      modifies this, flags, nodes`next
      ensures Valid() && fresh(t) && nodes == old(nodes) + {t} && t.loco == loco && t.onEvent == onEvent
      ensures Now() == Do(old(Now()), Start(t))
      ensures crowded == (old(crowded) || |old(ring)| >= MAX_FLAGS) && stops == old(stops)
      ensures flags[..] == SetFlag(old(flags[..]), t.taskId, TASK_FLAG, 0)
    {
      hide Circle, GetFlag, Owned, SetFlag;
      var taskId := FindId();
      t := new Task(taskId, loco, onEvent);
      Register(t);
      Enter(t);
    }

    /** The walk of the destructor to the task before this one. */
    method FindBefore(t: Task, ghost from: seq<Task>) returns (before: Task)
      requires Circle(t, from, nodes) && from != []
      ensures before == from[|from| - 1]
    {
      before := t.next;
      ghost var i := if |from| > 1 then 1 else 0;
      while before.next != t
        invariant i < |from| && before == from[i] && (i == 0 ==> |from| == 1)
        decreases |from| - i
      {
        before := before.next;
        i := i + 1;
      }
    }

    /** The part of the destructor that takes a task out of the ring; the next one runs next. */
    method Leave(t: Task, ghost at: nat)
      requires Circle(loopTask, ring, nodes) && at < |ring| && ring[at] == t
      modifies this`loopTask, this`ring, this`nodes, nodes`next
      ensures Circle(loopTask, ring, nodes) && nodes == old(nodes) - {t}
      ensures ring == Rotated(old(ring), at)[1..]
    {
      hide Rotated;
      CircleTurns(loopTask, ring, nodes, at);
      ghost var r, all := Rotated(ring, at), nodes;
      if t.next == t {
        assert |r| == 1;
        loopTask := null;
      } else {
        var before := FindBefore(t, r);
        before.next := t.next;
        loopTask := t.next;
      }
      ring, nodes := r[1..], nodes - {t};
      hide Circle;
      Left(r, all);
    }

    /** The flag of a task that ends. */
    method Unregister(t: Task)
      requires Valid() && t in nodes
      modifies this`owners, flags
      ensures Circle(loopTask, ring, nodes) && flags.Length == MAX_FLAGS
      ensures flags[..] == SetFlag(old(flags[..]), t.taskId, 0, TASK_FLAG)
      ensures !crowded ==> Owned(nodes - {t}, owners, flags[..]) && |owners| == |ring| - 1
    {
      hide Circle, GetFlag, Owned, SetFlag;
      if !crowded {
        OwnedEnds(nodes, owners, flags[..], t);
      }
      owners := owners - {t.taskId};
      Mark(t.taskId, 0, TASK_FLAG);
    }

    /** RMFT2::~RMFT2: one task less; its loco is stopped unless an event started the task. */
    method Destroy(t: Task)
      requires Valid() && t in nodes
      modifies this, flags, nodes`next
      ensures Valid() && nodes == old(nodes) - {t} && crowded == old(crowded)
      ensures exists at: nat | at < |old(ring)| && old(ring)[at] == t :: Now() == Do(old(Now()), End(at))
      ensures stops == old(stops) + if t.loco > 0 && t.onEvent == -1 then [t.loco] else []
      ensures flags[..] == SetFlag(old(flags[..]), t.taskId, 0, TASK_FLAG)
    {
      hide Owned, GetFlag, SetFlag, Rotated, Circle;
      ghost var at := IndexOf(t);
      if t.loco > 0 && t.onEvent == -1 {
        stops := stops + [t.loco];
      }
      Unregister(t);
      Leave(t, at);
    }

    ghost method IndexOf(t: Task) returns (at: nat)
      requires Valid() && t in nodes
      ensures at < |ring| && ring[at] == t
    {
      hide Owned;
      assert t in ring;
      at :| at < |ring| && ring[at] == t;
    }

    /** OPCODE_KILLALL ends all tasks. */
    method KillAll()
      requires Valid()
      modifies this, flags, nodes`next
      ensures Valid() && nodes == {} && crowded == old(crowded)
      ensures Now() == Machine([], old(pausingTask), old(served))
      ensures !crowded ==> forall f: nat | f < MAX_FLAGS :: !GetFlag(flags[..], f, TASK_FLAG)
    {
      hide Owned, GetFlag, SetFlag, Rotated;
      while loopTask != null
        invariant Valid() && nodes <= old(nodes) && crowded == old(crowded)
        invariant pausingTask == old(pausingTask) && served == old(served)
        decreases |ring|
      {
        HeadIsIn();
        Destroy(loopTask);
      }
      EmptyRing();
    }

    lemma HeadIsIn()
      requires Valid() && loopTask != null
      ensures loopTask in nodes && ring != []
    {
      hide Owned;
    }

    lemma EmptyRing()
      requires Valid() && loopTask == null
      ensures ring == [] && nodes == {}
      ensures !crowded ==> forall f: nat | f < MAX_FLAGS :: !GetFlag(flags[..], f, TASK_FLAG)
    {
      hide GetFlag;
      assert forall t | t in nodes :: t in ring;
    }

    /** RMFT2::loop: the next task in the ring is served, unless another one is pausing it. */
    method Loop() returns (t: Task?)
      requires Valid()
      modifies this`loopTask, this`ring, this`served
      ensures Valid() && nodes == old(nodes)
      ensures Now() == Step(old(Now()), Call([]))
      ensures served == old(served) + if t == null then [] else [t]
    {
      hide Owned, Rotated;
      if loopTask == null { return null; }
      if |ring| > 1 {
        CircleTurns(loopTask, ring, nodes, 1);
        ring := Rotated(ring, 1);
      }
      var task: Task := loopTask.next;
      loopTask := task;
      if pausingTask == NoOne || pausingTask == Only(task) {
        served := served + [task];
        return task;
      }
      return null;
    }

    /** OPCODE_PAUSE of the task that is served. */
    method Pause()
      requires Valid() && loopTask != null
      modifies this`pausingTask
      ensures Valid() && Now() == Do(old(Now()), PauseMe)
    {
      hide Owned;
      pausingTask := Only(loopTask);
    }

    /** `</ PAUSE>` */
    method PauseEveryone()
      requires Valid()
      modifies this`pausingTask
      ensures Valid() && Now() == Do(old(Now()), PauseAll)
    {
      pausingTask := Everyone;
    }

    /** OPCODE_RESUME and `</ RESUME>` */
    method ResumeAll()
      requires Valid()
      modifies this`pausingTask
      ensures Valid() && Now() == Do(old(Now()), Resume)
    {
      pausingTask := NoOne;
    }

    /** RMFT2::startNonRecursiveTask: a handler is started unless a task for the same handler and loco is alive. */
    method StartHandler(pc: nat, loco: nat) returns (t: Task?)
      requires Valid()
      modifies this, flags, nodes`next
      ensures Valid()
      ensures t == null <==> exists x | x in old(nodes) :: x.onEvent == pc && x.loco == loco
      ensures t == null ==> Now() == old(Now()) && nodes == old(nodes) && flags[..] == old(flags[..])
      ensures t != null ==> fresh(t) && t.onEvent == pc && t.loco == loco && Now() == Do(old(Now()), Start(t))
    {
      var found := IsHandled(pc, loco);
      if found { return null; }
      t := Create(loco, pc);
    }

    method IsHandled(pc: nat, loco: nat) returns (found: bool)
      requires Valid()
      ensures found <==> exists x | x in nodes :: x.onEvent == pc && x.loco == loco
    {
      hide Owned, GetFlag;
      if loopTask == null {
        EmptyRing();
        return false;
      }
      var task := loopTask;
      ghost var i := 0;
      while true
        invariant i < |ring| && task == ring[i]
        invariant forall k | 0 <= k < i :: !(ring[k].onEvent == pc && ring[k].loco == loco)
        decreases |ring| - i
      {
        if task.onEvent == pc && task.loco == loco { return true; }
        task := task.next;
        if task == loopTask { break; }
        i := i + 1;
      }
      assert i == |ring| - 1;
      assert forall x | x in nodes :: x in ring;
      return false;
    }
  }

  // ---------- Each task is served ----------

  function Allowed<T(==)>(p: Pausing<T>, ts: seq<T>): seq<T> {
    if ts == [] then [] else (if Lets(p, ts[0]) then [ts[0]] else []) + Allowed(p, ts[1..])
  }

  function Calls<T>(n: nat): (events: seq<Event<T>>)
    ensures |events| == n
  {
    seq(n, _ => Call([]))
  }

  lemma {:induction false} AllowedSum<T>(p: Pausing<T>, a: seq<T>, b: seq<T>)
    ensures Allowed(p, a + b) == Allowed(p, a) + Allowed(p, b)
    decreases |a|
  {
    if a == [] {
      assert a + b == b;
    } else {
      var first := if Lets(p, a[0]) then [a[0]] else [];
      assert (a + b)[0] == a[0] && (a + b)[1..] == a[1..] + b;
      AllowedSum(p, a[1..], b);
      assert first + (Allowed(p, a[1..]) + Allowed(p, b)) == first + Allowed(p, a[1..]) + Allowed(p, b);
    }
  }

  /** Which tasks may be served at all, of some that are distinct. */
  lemma {:induction false} AllowedAre<T>(p: Pausing<T>, ts: seq<T>)
    requires forall i, j | 0 <= i < j < |ts| :: ts[i] != ts[j]
    ensures p.NoOne? ==> Allowed(p, ts) == ts
    ensures p.Only? ==> Allowed(p, ts) == if p.task in ts then [p.task] else []
    ensures p.Everyone? ==> Allowed(p, ts) == []
    decreases |ts|
  {
    if ts != [] {
      AllowedAre(p, ts[1..]);
      assert ts == [ts[0]] + ts[1..];
    }
  }

  lemma TurnsPast<T>(ring: seq<T>, n: nat)
    requires n < |ring|
    ensures Turned(ring[n..] + ring[..n]) == ring[n + 1..] + ring[..n + 1]
    ensures Turned(ring[n..] + ring[..n])[0] == Turned(ring)[n]
  {
    var before, after := ring[n..] + ring[..n], ring[n + 1..] + ring[..n + 1];
    assert before[1..] + [before[0]] == after;
    assert after[0] == if n + 1 < |ring| then ring[n + 1] else ring[0];
  }

  lemma {:induction false} CallsServe<T>(m: Machine<T>, n: nat)
    requires n <= |m.ring|
    ensures Run(m, Calls(n)) ==
      Machine(m.ring[n..] + m.ring[..n], m.pausing, m.served + Allowed(m.pausing, Turned(m.ring)[..n]))
    decreases n
  {
    hide Turned;
    if n == 0 {
      assert m.ring[0..] + m.ring[..0] == m.ring;
    } else {
      var before := Run(m, Calls(n - 1));
      assert Calls<T>(n)[..n - 1] == Calls(n - 1);
      CallsServe(m, n - 1);
      TurnsPast(m.ring, n - 1);
      var next := Turned(m.ring)[n - 1];
      assert Turned(m.ring)[..n] == Turned(m.ring)[..n - 1] + [next];
      AllowedSum(m.pausing, Turned(m.ring)[..n - 1], [next]);
      assert [next][1..] == [];
      assert Allowed(m.pausing, [next]) == if Lets(m.pausing, next) then [next] else [];
    }
  }

  /** Main result: if nothing is started, ended, paused or resumed, as many calls of loop as there are tasks serve
      each task once in the order of the ring, if and only if none is pausing or it is the one that is. */
  lemma EachTaskRuns<T>(m: Machine<T>)
    requires forall i, j | 0 <= i < j < |m.ring| :: m.ring[i] != m.ring[j]
    ensures var t := Run(m, Calls(|m.ring|));
      && t.ring == m.ring && t.pausing == m.pausing && m.served <= t.served
      && (m.pausing.NoOne? ==> t.served == m.served + Turned(m.ring))
      && (m.pausing.Only? && m.pausing.task in m.ring ==> t.served == m.served + [m.pausing.task])
      && (Frozen(m) ==> t.served == m.served)
  {
    hide Calls;
    CallsServe(m, |m.ring|);
    assert m.ring[|m.ring|..] + m.ring[..|m.ring|] == m.ring;
    assert Turned(m.ring)[..|m.ring|] == Turned(m.ring);
    TurnedIsDistinct(m.ring);
    AllowedAre(m.pausing, Turned(m.ring));
  }

  lemma TurnedIsDistinct<T>(ring: seq<T>)
    requires forall i, j | 0 <= i < j < |ring| :: ring[i] != ring[j]
    ensures forall i, j | 0 <= i < j < |ring| :: Turned(ring)[i] != Turned(ring)[j]
  {
  }

  /** Nobody resumes or pauses, nor do tasks that are served. */
  predicate NoPausing<T>(acts: seq<Act<T>>) {
    forall k | 0 <= k < |acts| :: acts[k].Start? || acts[k].End?
  }

  predicate LeavesPause<T>(e: Event<T>) {
    if e.Call? then NoPausing(e.acts) else e.act.Start? || e.act.End?
  }

  /** After a task has paused the others, calls of loop serve this task and no other, whatever is started and ended,
      as long as nobody resumes or pauses. */
  lemma {:induction false} PauseHolds<T>(m: Machine<T>, events: seq<Event<T>>) returns (k: nat)
    requires m.ring != [] && forall i | 0 <= i < |events| :: LeavesPause(events[i])
    ensures var t := Run(Do(m, PauseMe), events);
      t.pausing == Only(m.ring[0]) && t.served == m.served + seq(k, _ => m.ring[0])
    decreases |events|
  {
    hide LeavesPause;
    if events == [] {
      k := 0;
      assert m.served + seq(0, _ => m.ring[0]) == m.served;
    } else {
      var n := |events| - 1;
      k := PauseHolds(m, events[..n]);
      var before := Run(Do(m, PauseMe), events[..n]);
      PauseStays(before, events[n]);
      var after := Step(before, events[n]);
      if after.served != before.served {
        assert seq(k, _ => m.ring[0]) + [m.ring[0]] == seq(k + 1, _ => m.ring[0]);
        k := k + 1;
      }
    }
  }

  lemma PauseStays<T>(m: Machine<T>, e: Event<T>)
    requires m.pausing.Only? && LeavesPause(e)
    ensures var t := Step(m, e);
      t.pausing == m.pausing && (t.served == m.served || t.served == m.served + [m.pausing.task])
  {
    if e.Call? && m.ring != [] && Lets(m.pausing, Turned(m.ring)[0]) {
      var ring := Turned(m.ring);
      ActsStay(Machine(ring, m.pausing, m.served + [ring[0]]), e.acts);
    }
  }

  lemma {:induction false} ActsStay<T>(m: Machine<T>, acts: seq<Act<T>>)
    requires NoPausing(acts)
    ensures DoAll(m, acts).pausing == m.pausing && DoAll(m, acts).served == m.served
    decreases |acts|
  {
    if acts != [] {
      ActsStay(Do(m, acts[0]), acts[1..]);
    }
  }

  /** After a command has paused all tasks nobody is served, and when one resumes all are, each in its turn. */
  lemma CommandsPauseAndResume<T>(m: Machine<T>, events: seq<Event<T>>)
    requires forall i | 0 <= i < |events| :: LeavesPause(events[i])
    ensures var p := Run(Do(m, PauseAll), events);
      && p.served == m.served
      && var r := Do(p, Resume);
         (forall i, j | 0 <= i < j < |r.ring| :: r.ring[i] != r.ring[j]) ==>
           Run(r, Calls(|r.ring|)).served == m.served + Turned(r.ring)
  {
    FrozenForGood(Do(m, PauseAll), events);
    hide Run, Turned;
    var r := Do(Run(Do(m, PauseAll), events), Resume);
    if forall i, j | 0 <= i < j < |r.ring| :: r.ring[i] != r.ring[j] {
      EachTaskRuns(r);
    }
  }
}

/** RMFT2::loop2 and skipIfBlock.  A program counter is modelled by the route code from there on;
    in one fixed RouteCode the two determine each other. */
module ExrailVm {
  import opened Bytes
  import opened ExrailScript

  /** A task: is it alive, where is it, where do its calls return to, what has it tested and done. */
  datatype Task = Task(alive: bool, code: seq<byte>, stack: seq<seq<byte>>, tests: nat, trace: seq<Event>)

  predicate HasInstr(code: seq<byte>) {
    |code| >= 3
  }

  /** getOperand(0) */
  function Operand(code: seq<byte>): word
    requires HasInstr(code)
  {
    var low, high: int := code[1], code[2];
    low + 256 * high
  }

  /** getOperand(1), getOperand(2), ... as far as there are PADs for them. */
  function PadOperands(code: seq<byte>): seq<word> {
    if HasInstr(code) && code[0] == PAD then [Operand(code)] + PadOperands(code[3..]) else []
  }

  /** skipIfBlock from the instruction before `code`: what it stops at, or [] if it gets to ENDEXRAIL. */
  function SkipIfBlock(code: seq<byte>, nest: nat): (r: seq<byte>)
    requires nest > 0
    ensures r == [] || (HasInstr(r) && |r| <= |code|)
  {
    if !HasInstr(code) then []
    else if code[0] > IF_TYPE_OPCODES then SkipIfBlock(code[3..], nest + 1)
    else if code[0] == ENDEXRAIL then []
    else if code[0] == ENDIF then (if nest == 1 then code else SkipIfBlock(code[3..], nest - 1))
    else if code[0] == ELSE && nest == 1 then code
    else SkipIfBlock(code[3..], nest)
  }

  /** The first instruction of one of the `kinds` with this operand before ENDEXRAIL, as
      LookListLoader and LookList::find look for it; [] if there is none. */
  function FindKind(code: seq<byte>, kinds: set<byte>, id: word): seq<byte> {
    if !HasInstr(code) || code[0] == ENDEXRAIL then []
    else if code[0] in kinds && Operand(code) == id then code
    else FindKind(code[3..], kinds, id)
  }

  /** routeLookup->find: routes and automations first, then sequences. */
  function Find(route: seq<byte>, id: word): seq<byte> {
    var found := FindKind(route, {ROUTE, AUTOMATION}, id);
    if found != [] then found else FindKind(route, {SEQUENCE}, id)
  }

  /** The end of loop2: move on, skipping a block first if `skip` says so. */
  function Advance(t: Task, skip: bool): Task
    requires HasInstr(t.code)
  {
    if skip then
      var at := SkipIfBlock(t.code[3..], 1);
      if at == [] then t.(alive := false) else t.(code := at[3..])
    else t.(code := t.code[3..])
  }

  /** The opcodes that end by falling out of loop2's switch. */
  predicate Breaks(op: byte) {
    IsIf(op) || IsAction(op) || op in {ELSE, ENDIF, PAD, ROUTE, AUTOMATION, SEQUENCE}
  }

  function Walk(t: Task, outcome: nat -> bool): Task
    requires HasInstr(t.code)
  {
    var op := t.code[0];
    var arg := Operand(t.code);
    var pads := PadOperands(t.code[3..]);
    if IsIf(op) then
      var b := outcome(t.tests);
      Advance(t.(tests := t.tests + 1, trace := t.trace + [Tested(op, arg, pads, b)]), !b)
    else if IsAction(op) then Advance(t.(trace := t.trace + [Did(op, arg, pads)]), false)
    else Advance(t, op == ELSE)
  }

  /** RMFT2::loop2 for the opcodes of `Script`, when nothing makes it wait.  `route` is the whole RouteCode. */
  function Step(route: seq<byte>, t: Task, outcome: nat -> bool): Task {
    if !t.alive then t
    else if !HasInstr(t.code) then t.(alive := false)
    else
      var op := t.code[0];
      if Breaks(op) then Walk(t, outcome)
      else if op == CALL then
        var to := Find(route, Operand(t.code));
        if |t.stack| >= MAX_STACK_DEPTH || to == [] then t.(alive := false)
        else t.(stack := t.stack + [t.code[3..]], code := to)
      else if op == FOLLOW then
        var to := Find(route, Operand(t.code));
        if to == [] then t.(alive := false) else t.(code := to)
      else if op == RETURN then
        if t.stack == [] then t.(alive := false)
        else t.(code := t.stack[|t.stack| - 1], stack := t.stack[..|t.stack| - 1])
      else t.(alive := false)
  }

  lemma {:induction false} FoundStarts(code: seq<byte>, kinds: set<byte>, id: word)
    ensures var f := FindKind(code, kinds, id); f != [] ==> HasInstr(f) && f[0] in kinds
    decreases |code|
  {
    if HasInstr(code) {
      FoundStarts(code[3..], kinds, id);
    }
  }

  /** Whatever the bytes are, a task never stands still: a call of loop2 that does not have to wait takes it somewhere
      else, or kills it. */
  lemma CallsMoveOn(route: seq<byte>, t: Task, outcome: nat -> bool)
    requires t.alive
    ensures var n := Step(route, t, outcome); n.alive ==> (n.code, n.stack) != (t.code, t.stack)
  {
    if HasInstr(t.code) {
      FoundStarts(route, {ROUTE, AUTOMATION}, Operand(t.code));
      FoundStarts(route, {SEQUENCE}, Operand(t.code));
    }
  }

  /** `n` calls of loop2 that do not have to wait. */
  function Run(route: seq<byte>, t: Task, outcome: nat -> bool, n: nat): Task
    decreases n
  {
    if n == 0 then t else Run(route, Step(route, t, outcome), outcome, n - 1)
  }

  /** A call of loop2 that finds the delay, sensor, section or signal not ready.  The instruction is tried
      again by the next call; what it does for now, such as stopping the loco, is in the record. */
  function Wait(t: Task): Task {
    if t.alive && HasInstr(t.code) then t.(trace := t.trace + [Waited(t.code[0], Operand(t.code))]) else t
  }

  /** Calls of loop2 some of which have to wait. */
  function RunWaiting(route: seq<byte>, t: Task, outcome: nat -> bool, ready: seq<bool>): Task
    decreases |ready|
  {
    if ready == [] then t
    else RunWaiting(route, if ready[0] then Step(route, t, outcome) else Wait(t), outcome, ready[1..])
  }

  function Count(ready: seq<bool>): nat {
    if ready == [] then 0 else (if ready[0] then 1 else 0) + Count(ready[1..])
  }

  /** A record without its waits. */
  function Active(trace: seq<Event>): seq<Event> {
    if trace == [] then []
    else
      var e := trace[|trace| - 1];
      Active(trace[..|trace| - 1]) + if e.Waited? then [] else [e]
  }

  function Rested(t: Task): Task {
    t.(trace := Active(t.trace))
  }

  lemma ActiveOne(trace: seq<Event>, e: Event)
    ensures Active(trace + [e]) == Active(trace) + if e.Waited? then [] else [e]
  {
    assert (trace + [e])[..|trace|] == trace;
  }

  /** What an instruction does depends on nothing in the record. */
  lemma StepForgets(route: seq<byte>, t: Task, outcome: nat -> bool)
    ensures Step(route, Rested(t), outcome) == Rested(Step(route, t, outcome))
  {
    hide Find, FindKind, Active, SkipIfBlock, PadOperands;
    if t.alive && HasInstr(t.code) {
      var op, arg, pads := t.code[0], Operand(t.code), PadOperands(t.code[3..]);
      ActiveOne(t.trace, if IsIf(op) then Tested(op, arg, pads, outcome(t.tests)) else Did(op, arg, pads));
    }
  }

  /** Waiting only delays: apart from what it does while it waits, a task does the same things in the same
      order and ends up in the same place as without waits, after as many calls that were ready. */
  lemma {:induction false} WaitingOnlyDelays(route: seq<byte>, t: Task, outcome: nat -> bool, ready: seq<bool>)
    ensures Rested(RunWaiting(route, t, outcome, ready)) == Run(route, Rested(t), outcome, Count(ready))
    decreases |ready|
  {
    hide Step, Active;
    if ready != [] {
      if ready[0] {
        StepForgets(route, t, outcome);
        WaitingOnlyDelays(route, Step(route, t, outcome), outcome, ready[1..]);
      } else {
        if t.alive && HasInstr(t.code) {
          ActiveOne(t.trace, Waited(t.code[0], Operand(t.code)));
        }
        assert Rested(Wait(t)) == Rested(t);
        WaitingOnlyDelays(route, Wait(t), outcome, ready[1..]);
      }
    }
  }

  lemma {:induction false} RunTwice(route: seq<byte>, t: Task, outcome: nat -> bool, m: nat, n: nat)
    ensures Run(route, Run(route, t, outcome, m), outcome, n) == Run(route, t, outcome, m + n)
    decreases m
  {
    if m > 0 {
      RunTwice(route, Step(route, t, outcome), outcome, m - 1, n);
    }
  }
}

/** RMFT2's interpreter as it is: a program counter into RouteCode and a fixed call stack. */
module ExrailTask {
  import opened Bytes
  import opened ExrailScript
  import opened ExrailVm

  /** An ENDEXRAIL lies ahead. */
  predicate Ended(code: seq<byte>) {
    HasInstr(code) && (code[0] == ENDEXRAIL || Ended(code[3..]))
  }

  lemma EndedInstr(op: byte, arg: word, rest: seq<byte>)
    requires Ended(rest)
    ensures Ended(Instr(op, arg) + rest)
  {
    assert (Instr(op, arg) + rest)[3..] == rest;
  }

  lemma {:induction false} EndedPads(pads: seq<word>, rest: seq<byte>)
    requires Ended(rest)
    ensures Ended(Pads(pads, rest))
    decreases |pads|
  {
    if pads != [] {
      EndedPads(pads[1..], rest);
      EndedInstr(PAD, pads[0], Pads(pads[1..], rest));
    }
  }

  lemma {:induction false} EndedScript(s: Script, rest: seq<byte>)
    requires Ended(rest)
    ensures Ended(Compile(s, rest))
    decreases s, 0
  {
    match s
    case End =>
    case Act(op, arg, pads, next) =>
      EndedScript(next, rest);
      EndedPads(pads, Compile(next, rest));
      EndedInstr(op, arg, Pads(pads, Compile(next, rest)));
    case If(op, arg, pads, thn, next) =>
      EndedScript(next, rest);
      EndedInstr(ENDIF, 0, Compile(next, rest));
      EndedBlock(op, arg, pads, thn, Instr(ENDIF, 0) + Compile(next, rest));
    case IfElse(op, arg, pads, thn, els, next) =>
      EndedScript(next, rest);
      EndedInstr(ENDIF, 0, Compile(next, rest));
      EndedScript(els, Instr(ENDIF, 0) + Compile(next, rest));
      EndedInstr(ELSE, 0, Compile(els, Instr(ENDIF, 0) + Compile(next, rest)));
      EndedBlock(op, arg, pads, thn, Instr(ELSE, 0) + Compile(els, Instr(ENDIF, 0) + Compile(next, rest)));
    case Call(route, next) =>
      EndedScript(next, rest);
      EndedInstr(CALL, route, Compile(next, rest));
    case Follow(route, next) =>
      EndedScript(next, rest);
      EndedInstr(FOLLOW, route, Compile(next, rest));
    case Return(next) =>
      EndedScript(next, rest);
      EndedInstr(RETURN, 0, Compile(next, rest));
    case Done(next) =>
      EndedScript(next, rest);
      EndedInstr(ENDTASK, 0, Compile(next, rest));
  }

  lemma {:induction false} EndedBlock(op: byte, arg: word, pads: seq<word>, s: Script, rest: seq<byte>)
    requires Ended(rest)
    ensures Ended(Instr(op, arg) + Pads(pads, Compile(s, rest)))
    decreases s, 1
  {
    EndedScript(s, rest);
    EndedPads(pads, Compile(s, rest));
    EndedInstr(op, arg, Pads(pads, Compile(s, rest)));
  }

  lemma {:induction false} EndedRoutines(routines: seq<Routine>)
    ensures Ended(Code(routines))
    decreases |routines|
  {
    if routines == [] {
      EndedInstr(ENDTASK, 0, Instr(ENDEXRAIL, 0));
    } else {
      var r, more := routines[0], Code(routines[1..]);
      EndedRoutines(routines[1..]);
      EndedScript(r.body, more);
      EndedInstr(r.kind, r.id, Compile(r.body, more));
    }
  }

  /** Every linked script file is fit for the interpreter below. */
  lemma LinkIsEnded(program: Program)
    ensures Ended(Link(program))
  {
    EndedRoutines(program.routines);
    EndedScript(program.start, Code(program.routines));
  }

  class Rmft2 {
    const routeCode: seq<byte>
    const callStack: array<nat>
    var alive: bool
    var progCounter: nat
    var stackDepth: nat
    var tests: nat              // how many conditions have been tested
    var trace: seq<Event>       // what has been tested and done

    /** What is in front of a program counter. */
    ghost function From(pc: nat): seq<byte> {
      if pc <= |routeCode| then routeCode[pc..] else []
    }

    ghost function Codes(pcs: seq<nat>): seq<seq<byte>> {
      seq(|pcs|, i requires 0 <= i < |pcs| => From(pcs[i]))
    }

    ghost predicate Valid()
      reads this, callStack
    {
      && callStack.Length == MAX_STACK_DEPTH && stackDepth <= MAX_STACK_DEPTH
      && Ended(routeCode)
      && (alive ==> Ended(From(progCounter)))
      && forall i | 0 <= i < stackDepth :: Ended(From(callStack[i]))
    }

    /** The task of the simulation. */
    ghost function Abs(): Task
      reads this, callStack
      requires stackDepth <= callStack.Length
    {
      Task(alive, From(progCounter), Codes(callStack[..stackDepth]), tests, trace)
    }

    /** A task that starts at some position of the route code, as createNewTask makes it. */
    constructor (routeCode: seq<byte>, progCounter: nat)
      requires Ended(routeCode) && progCounter <= |routeCode| && Ended(routeCode[progCounter..])
      ensures Valid() && fresh(callStack) && this.routeCode == routeCode
      ensures Abs() == Task(true, routeCode[progCounter..], [], 0, [])
    {
      this.routeCode := routeCode;
      this.progCounter := progCounter;
      callStack := new nat[MAX_STACK_DEPTH];
      alive, stackDepth, tests, trace := true, 0, 0, [];
    }

    /** One instruction of the scan. */
    lemma SkipsOne(pc: nat, nest: nat)
      requires nest > 0 && Ended(From(pc))
      ensures var op := routeCode[pc];
        ExrailVm.SkipIfBlock(From(pc), nest) ==
          if op > IF_TYPE_OPCODES then ExrailVm.SkipIfBlock(From(pc + 3), nest + 1)
          else if op == ENDEXRAIL then []
          else if op == ENDIF && nest > 1 then ExrailVm.SkipIfBlock(From(pc + 3), nest - 1)
          else if op == ENDIF || (op == ELSE && nest == 1) then From(pc)
          else ExrailVm.SkipIfBlock(From(pc + 3), nest)
    {
      Unfolds(pc);
    }

    /** RMFT2::skipIfBlock: false if that kills the task. */
    method SkipIfBlock() returns (ok: bool)
      requires Valid() && alive && routeCode[progCounter] != ENDEXRAIL
      modifies this`progCounter, this`alive
      ensures Valid() && ok == alive
      ensures var at := ExrailVm.SkipIfBlock(From(old(progCounter) + 3), 1);
        if ok then at == From(progCounter) && at != [] && at[0] != ENDEXRAIL else at == []
    {
      hide ExrailVm.SkipIfBlock, Ended, From;
      ghost var start := From(progCounter + 3);
      Unfolds(progCounter);
      Follows(progCounter);
      var nest := 1;
      while nest > 0
        invariant Ended(From(progCounter)) && alive
        invariant progCounter < |routeCode| && routeCode[progCounter] != ENDEXRAIL
        invariant if nest > 0 then ExrailVm.SkipIfBlock(From(progCounter + 3), nest) == ExrailVm.SkipIfBlock(start, 1)
                  else ExrailVm.SkipIfBlock(start, 1) == From(progCounter)
        invariant nest >= 0
        decreases |routeCode| - progCounter, nest
      {
        Follows(progCounter);
        progCounter := progCounter + 3;
        Unfolds(progCounter);
        SkipsOne(progCounter, nest);
        var opcode := routeCode[progCounter];
        if opcode > IF_TYPE_OPCODES {
          nest := nest + 1;
        } else if opcode == ENDEXRAIL {
          alive := false;
          return false;
        } else if opcode == ENDIF {
          nest := nest - 1;
        } else if opcode == ELSE {
          if nest == 1 { nest := 0; }
        }
      }
      Unfolds(progCounter);
      return true;
    }

    lemma Follows(pc: nat)
      requires Ended(From(pc)) && routeCode[pc] != ENDEXRAIL
      ensures Ended(From(pc + 3)) && From(pc + 3) == From(pc)[3..]
    {
    }

    lemma Unfolds(pc: nat)
      requires Ended(From(pc))
      ensures pc + 3 <= |routeCode|
      ensures From(pc)[0] == routeCode[pc] && From(pc) != []
      ensures routeCode[pc] != ENDEXRAIL ==> From(pc)[3..] == From(pc + 3)
    {
    }

    /** LookListLoader and LookList::find in one scan. */
    method FindKind(kinds: set<byte>, id: word) returns (pc: int)
      requires Ended(routeCode)
      ensures pc >= -1
      ensures if pc < 0 then ExrailVm.FindKind(routeCode, kinds, id) == []
              else ExrailVm.FindKind(routeCode, kinds, id) == From(pc) && Ended(From(pc))
    {
      pc := 0;
      while routeCode[pc] != ENDEXRAIL
        invariant pc >= 0 && Ended(From(pc))
        invariant ExrailVm.FindKind(routeCode, kinds, id) == ExrailVm.FindKind(From(pc), kinds, id)
        decreases |routeCode| - pc
      {
        Unfolds(pc);
        if routeCode[pc] in kinds && OperandAt(pc) == id { return; }
        Follows(pc);
        pc := pc + 3;
      }
      Unfolds(pc);
      pc := -1;
    }

    /** getOperand(0) */
    function OperandAt(pc: nat): word
      requires pc + 3 <= |routeCode|
      ensures OperandAt(pc) == Operand(From(pc))
    {
      var low, high: int := routeCode[pc + 1], routeCode[pc + 2];
      low + 256 * high
    }

    /** The end of loop2: skip a block if an IF failed, and step over the last instruction. */
    method Finish(skipIf: bool)
      requires Valid() && alive && routeCode[progCounter] != ENDEXRAIL
      modifies this`progCounter, this`alive
      ensures Valid()
      ensures HasInstr(old(Abs()).code) && Same(Abs(), Advance(old(Abs()), skipIf))
    {
      if skipIf {
        Follows(progCounter);
        var ok := SkipIfBlock();
        if !ok { return; }
      }
      Follows(progCounter);
      progCounter := progCounter + 3;
    }

    /** routeLookup->find */
    method FindRoute(route: word) returns (pc: int)
      requires Ended(routeCode)
      ensures if pc < 0 then Find(routeCode, route) == []
              else Find(routeCode, route) == From(pc) && Ended(From(pc))
    {
      pc := FindKind({ROUTE, AUTOMATION}, route);
      if pc < 0 {
        pc := FindKind({SEQUENCE}, route);
      }
    }

    /** callStack[stackDepth++]=... */
    method Push(pc: nat)
      requires Valid() && stackDepth < MAX_STACK_DEPTH && Ended(From(pc))
      modifies this`stackDepth, callStack
      ensures Valid() && Abs() == old(Abs()).(stack := old(Abs()).stack + [From(pc)])
    {
      ghost var pcs := callStack[..stackDepth];
      callStack[stackDepth] := pc;
      stackDepth := stackDepth + 1;
      assert callStack[..stackDepth] == pcs + [pc];
    }

    /** OPCODE_CALL */
    method Call(route: word)
      requires Valid() && alive && routeCode[progCounter] != ENDEXRAIL
      modifies this, callStack
      ensures Valid()
      ensures var t := old(Abs());
        if |t.stack| >= MAX_STACK_DEPTH || Find(routeCode, route) == [] then
          !alive && tests == old(tests) && trace == old(trace)
        else Abs() == t.(stack := t.stack + [t.code[3..]], code := Find(routeCode, route))
    {
      hide Find, Ended;
      if stackDepth == MAX_STACK_DEPTH {
        alive := false;
        return;
      }
      Follows(progCounter);
      var pc := FindRoute(route);
      Push(progCounter + 3);
      if pc < 0 {
        alive := false;
      } else {
        Unfolds(pc);
        progCounter := pc;
      }
    }

    /** OPCODE_FOLLOW */
    method Follow(route: word)
      requires Valid() && alive
      modifies this`progCounter, this`alive
      ensures Valid()
      ensures var to := Find(routeCode, route);
        if to == [] then !alive else Abs() == old(Abs()).(code := to)
    {
      hide Find, Ended;
      var pc := FindRoute(route);
      if pc < 0 {
        alive := false;
      } else {
        Unfolds(pc);
        progCounter := pc;
      }
    }

    /** OPCODE_RETURN */
    method Return()
      requires Valid() && alive
      modifies this`stackDepth, this`progCounter, this`alive
      ensures Valid()
      ensures var t := old(Abs());
        if t.stack == [] then Abs() == t.(alive := false)
        else Abs() == t.(code := t.stack[|t.stack| - 1], stack := t.stack[..|t.stack| - 1])
    {
      if stackDepth == 0 {
        alive := false;
        return;
      }
      stackDepth := stackDepth - 1;
      progCounter := callStack[stackDepth];
    }

    /** The opcodes that fall out of the switch. */
    method Break(outcome: nat -> bool)
      requires Valid() && alive && Breaks(routeCode[progCounter])
      modifies this`progCounter, this`alive, this`tests, this`trace
      ensures Valid()
      ensures HasInstr(old(Abs()).code) && Same(Abs(), Walk(old(Abs()), outcome))
    {
      Follows(progCounter);
      var opcode, operand := routeCode[progCounter], OperandAt(progCounter);
      var pads := PadOperands(routeCode[progCounter + 3..]);
      var skipIf := false;
      if IsIf(opcode) {
        skipIf := !outcome(tests);
        tests, trace := tests + 1, trace + [Tested(opcode, operand, pads, !skipIf)];
      } else if opcode == ELSE {
        skipIf := true;
      } else if IsAction(opcode) {
        trace := trace + [Did(opcode, operand, pads)];
      }
      Finish(skipIf);
    }

    /** RMFT2::loop2.  `ready` is false if a delay, sensor, section or signal makes the task wait; a dead
        task is as good as any other dead one with the same record. */
    method Loop2(ready: bool, outcome: nat -> bool)
      requires Valid()
      modifies this, callStack
      ensures Valid()
      ensures !ready ==> Abs() == Wait(old(Abs()))
      ensures ready ==> Same(Abs(), Step(routeCode, old(Abs()), outcome))
    {
      hide Walk, Find;
      if !alive { return; }
      Unfolds(progCounter);
      var opcode, operand := routeCode[progCounter], OperandAt(progCounter);
      if !ready {
        trace := trace + [Waited(opcode, operand)];
        return;
      }
      if Breaks(opcode) {
        Break(outcome);
      } else if opcode == CALL {
        Call(operand);
      } else if opcode == FOLLOW {
        Follow(operand);
      } else if opcode == RETURN {
        Return();
      } else {
        alive := false;
      }
    }
  }

  /** Equal, or both dead with equal records. */
  predicate Same(t: Task, u: Task) {
    t == u || (!t.alive && !u.alive && t.tests == u.tests && t.trace == u.trace)
  }
}

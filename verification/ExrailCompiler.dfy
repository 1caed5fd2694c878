/** The macro compiler and the task interpreter agree on every structured script. */
module ExrailCompiler {
  import opened Bytes
  import opened ExrailScript
  import opened ExrailVm

  lemma InstrParts(op: byte, arg: word, rest: seq<byte>)
    ensures var code := Instr(op, arg) + rest;
      HasInstr(code) && code[0] == op && Operand(code) == arg && code[3..] == rest
  {
  }

  /** An instruction follows that is not a PAD, so no operand list runs on. */
  predicate Fenced(code: seq<byte>) {
    HasInstr(code) && code[0] != PAD
  }

  lemma {:induction false} PadsAreRead(pads: seq<word>, rest: seq<byte>)
    requires Fenced(rest)
    ensures PadOperands(Pads(pads, rest)) == pads
    decreases |pads|
  {
    if pads != [] {
      InstrParts(PAD, pads[0], Pads(pads[1..], rest));
      PadsAreRead(pads[1..], rest);
    }
  }

  lemma ScriptFences(s: Script, rest: seq<byte>)
    requires Proper(s) && Fenced(rest)
    ensures Fenced(Compile(s, rest))
  {
  }

  // ---------- Skipping ----------

  lemma SkipInstr(op: byte, arg: word, rest: seq<byte>, nest: nat)
    requires nest > 0 && op != ENDEXRAIL
    ensures var code := Instr(op, arg) + rest;
      SkipIfBlock(code, nest) ==
        if op > IF_TYPE_OPCODES then SkipIfBlock(rest, nest + 1)
        else if op == ENDIF && nest > 1 then SkipIfBlock(rest, nest - 1)
        else if op == ENDIF || (op == ELSE && nest == 1) then code
        else SkipIfBlock(rest, nest)
  {
    InstrParts(op, arg, rest);
  }

  lemma {:induction false} SkipPads(pads: seq<word>, rest: seq<byte>, nest: nat)
    requires nest > 0
    ensures SkipIfBlock(Pads(pads, rest), nest) == SkipIfBlock(rest, nest)
    decreases |pads|
  {
    if pads != [] {
      SkipInstr(PAD, pads[0], Pads(pads[1..], rest), nest);
      SkipPads(pads[1..], rest, nest);
    }
  }

  /** Key lemma: skipping passes over a whole script, its inner IFs, ELSEs and ENDIFs included. */
  lemma {:induction false} SkipScript(s: Script, rest: seq<byte>, nest: nat)
    requires Proper(s) && nest > 0
    ensures SkipIfBlock(Compile(s, rest), nest) == SkipIfBlock(rest, nest)
    decreases s, 0
  {
    hide SkipIfBlock, Instr, Pads;
    if !s.End? {
      SkipScript(s.next, rest, nest);
    }
    match s
    case End =>
    case Act(op, arg, pads, next) =>
      SkipInstr(op, arg, Pads(pads, Compile(next, rest)), nest);
      SkipPads(pads, Compile(next, rest), nest);
    case If(op, arg, pads, thn, next) =>
      SkipBlock(op, arg, pads, thn, Instr(ENDIF, 0) + Compile(next, rest), nest);
      SkipInstr(ENDIF, 0, Compile(next, rest), nest + 1);
    case IfElse(op, arg, pads, thn, els, next) =>
      var end := Instr(ENDIF, 0) + Compile(next, rest);
      SkipBlock(op, arg, pads, thn, Instr(ELSE, 0) + Compile(els, end), nest);
      SkipInstr(ELSE, 0, Compile(els, end), nest + 1);
      SkipScript(els, end, nest + 1);
      SkipInstr(ENDIF, 0, Compile(next, rest), nest + 1);
    case Call(route, next) =>
      SkipInstr(CALL, route, Compile(next, rest), nest);
    case Follow(route, next) =>
      SkipInstr(FOLLOW, route, Compile(next, rest), nest);
    case Return(next) =>
      SkipInstr(RETURN, 0, Compile(next, rest), nest);
    case Done(next) =>
      SkipInstr(ENDTASK, 0, Compile(next, rest), nest);
  }

  /** Skipping an IF and its first block leaves it one level down. */
  lemma {:induction false} SkipBlock(op: byte, arg: word, pads: seq<word>, thn: Script, tail: seq<byte>, nest: nat)
    requires IsIf(op) && Proper(thn) && nest > 0
    ensures SkipIfBlock(Instr(op, arg) + Pads(pads, Compile(thn, tail)), nest) == SkipIfBlock(tail, nest + 1)
    decreases thn, 1
  {
    hide SkipIfBlock, Instr, Pads, Compile;
    SkipInstr(op, arg, Pads(pads, Compile(thn, tail)), nest);
    SkipPads(pads, Compile(thn, tail), nest + 1);
    SkipScript(thn, tail, nest + 1);
  }

  // ---------- Finding routines ----------

  lemma FindPast(op: byte, arg: word, rest: seq<byte>, kinds: set<byte>, id: word)
    requires op !in kinds && op != ENDEXRAIL
    ensures FindKind(Instr(op, arg) + rest, kinds, id) == FindKind(rest, kinds, id)
  {
    InstrParts(op, arg, rest);
  }

  lemma {:induction false} FindPads(pads: seq<word>, rest: seq<byte>, kinds: set<byte>, id: word)
    requires kinds <= {ROUTE, AUTOMATION, SEQUENCE}
    ensures FindKind(Pads(pads, rest), kinds, id) == FindKind(rest, kinds, id)
    decreases |pads|
  {
    if pads != [] {
      FindPast(PAD, pads[0], Pads(pads[1..], rest), kinds, id);
      FindPads(pads[1..], rest, kinds, id);
    }
  }

  /** The scan for routines passes over every script. */
  lemma {:induction false} FindScript(s: Script, rest: seq<byte>, kinds: set<byte>, id: word)
    requires Proper(s) && kinds <= {ROUTE, AUTOMATION, SEQUENCE}
    ensures FindKind(Compile(s, rest), kinds, id) == FindKind(rest, kinds, id)
    decreases s, 0
  {
    hide FindKind, Instr, Pads;
    if !s.End? {
      FindScript(s.next, rest, kinds, id);
    }
    match s
    case End =>
    case Act(op, arg, pads, next) =>
      FindPast(op, arg, Pads(pads, Compile(next, rest)), kinds, id);
      FindPads(pads, Compile(next, rest), kinds, id);
    case If(op, arg, pads, thn, next) =>
      FindBlock(op, arg, pads, thn, Instr(ENDIF, 0) + Compile(next, rest), kinds, id);
      FindPast(ENDIF, 0, Compile(next, rest), kinds, id);
    case IfElse(op, arg, pads, thn, els, next) =>
      var end := Instr(ENDIF, 0) + Compile(next, rest);
      FindBlock(op, arg, pads, thn, Instr(ELSE, 0) + Compile(els, end), kinds, id);
      FindPast(ELSE, 0, Compile(els, end), kinds, id);
      FindScript(els, end, kinds, id);
      FindPast(ENDIF, 0, Compile(next, rest), kinds, id);
    case Call(route, next) =>
      FindPast(CALL, route, Compile(next, rest), kinds, id);
    case Follow(route, next) =>
      FindPast(FOLLOW, route, Compile(next, rest), kinds, id);
    case Return(next) =>
      FindPast(RETURN, 0, Compile(next, rest), kinds, id);
    case Done(next) =>
      FindPast(ENDTASK, 0, Compile(next, rest), kinds, id);
  }

  lemma {:induction false} FindBlock(op: byte, arg: word, pads: seq<word>, thn: Script, tail: seq<byte>,
                                     kinds: set<byte>, id: word)
    requires IsIf(op) && Proper(thn) && kinds <= {ROUTE, AUTOMATION, SEQUENCE}
    ensures FindKind(Instr(op, arg) + Pads(pads, Compile(thn, tail)), kinds, id) == FindKind(tail, kinds, id)
    decreases thn, 1
  {
    hide FindKind, Instr, Pads, Compile;
    FindPast(op, arg, Pads(pads, Compile(thn, tail)), kinds, id);
    FindPads(pads, Compile(thn, tail), kinds, id);
    FindScript(thn, tail, kinds, id);
  }

  /** Routines have different ids, which the assertions of EXRAILAsserts.h make sure of. */
  ghost predicate ProperRoutines(routines: seq<Routine>) {
    && (forall i | 0 <= i < |routines| :: ProperRoutine(routines[i]))
    && (forall i, j | 0 <= i < j < |routines| :: routines[i].id != routines[j].id)
  }

  ghost predicate ProperProgram(program: Program) {
    Proper(program.start) && ProperRoutines(program.routines)
  }

  /** What a jump to this id finds: the code from that routine on, or nothing. */
  function Target(routines: seq<Routine>, id: word): seq<byte> {
    var to := Lookup(routines, id);
    if to == [] then [] else Code(to)
  }

  lemma {:induction false} FindInCode(routines: seq<Routine>, kinds: set<byte>, id: word)
    requires ProperRoutines(routines) && kinds <= {ROUTE, AUTOMATION, SEQUENCE}
    ensures FindKind(Code(routines), kinds, id) in {Target(routines, id), []}
    ensures Target(routines, id) != [] && Target(routines, id)[0] in kinds ==>
      FindKind(Code(routines), kinds, id) == Target(routines, id)
    decreases |routines|
  {
    if routines == [] {
      InstrParts(ENDTASK, 0, Instr(ENDEXRAIL, 0));
    } else {
      var r, more := routines[0], Code(routines[1..]);
      InstrParts(r.kind, r.id, Compile(r.body, more));
      FindScript(r.body, more, kinds, id);
      FindInCode(routines[1..], kinds, id);
      if r.id == id && r.kind !in kinds {
        NotElsewhere(routines[1..], id);
      }
    }
  }

  lemma {:induction false} NotElsewhere(routines: seq<Routine>, id: word)
    requires forall i | 0 <= i < |routines| :: routines[i].id != id
    ensures Lookup(routines, id) == []
    decreases |routines|
  {
    if routines != [] {
      NotElsewhere(routines[1..], id);
    }
  }

  lemma {:induction false} LookupIsProper(routines: seq<Routine>, id: word)
    requires ProperRoutines(routines)
    ensures ProperRoutines(Lookup(routines, id))
    ensures Lookup(routines, id) != [] ==> Lookup(routines, id)[0].id == id
    decreases |routines|
  {
    if routines != [] && routines[0].id != id {
      LookupIsProper(routines[1..], id);
    }
  }

  /** A jump finds the routine that the script file defines, and only if it does. */
  lemma FindsRoutine(program: Program, id: word)
    requires ProperProgram(program)
    ensures Find(Link(program), id) == Target(program.routines, id)
    ensures Lookup(program.routines, id) == [] <==> Find(Link(program), id) == []
  {
    var routines := program.routines;
    FindScript(program.start, Code(routines), {ROUTE, AUTOMATION}, id);
    FindScript(program.start, Code(routines), {SEQUENCE}, id);
    FindInCode(routines, {ROUTE, AUTOMATION}, id);
    FindInCode(routines, {SEQUENCE}, id);
    var to := Lookup(routines, id);
    LookupIsProper(routines, id);
    if to != [] {
      InstrParts(to[0].kind, to[0].id, Compile(to[0].body, Code(to[1..])));
    }
  }

  lemma CodeFences(routines: seq<Routine>)
    requires ProperRoutines(routines)
    ensures Fenced(Code(routines))
  {
    if routines == [] {
      InstrParts(ENDTASK, 0, Instr(ENDEXRAIL, 0));
    } else {
      InstrParts(routines[0].kind, routines[0].id, Compile(routines[0].body, Code(routines[1..])));
    }
  }

  // ---------- Running ----------

  /** Where a task stands after a script: behind it, back at its caller, dead, or before a FOLLOW. */
  ghost predicate Left(t: Task, r: Result, rest: seq<byte>, u: Task) {
    && u.trace == t.trace + r.events
    && (r.exit.Killed? ==> !u.alive)
    && (r.exit.Fell? ==> u == Task(true, rest, t.stack, r.tests, u.trace))
    && (r.exit.Returned? ==>
          && t.stack != []
          && u == Task(true, t.stack[|t.stack| - 1], t.stack[..|t.stack| - 1], r.tests, u.trace))
    && (r.exit.Paused? ==> u.alive && HasInstr(u.code) && u.code[0] == FOLLOW && u.tests == r.tests)
  }

  lemma {:induction false} RunPads(program: Program, pads: seq<word>, rest: seq<byte>, t: Task, outcome: nat -> bool)
    requires t.alive && t.code == Pads(pads, rest)
    ensures Run(Link(program), t, outcome, |pads|) == t.(code := rest)
    decreases |pads|
  {
    if pads != [] {
      var more := Pads(pads[1..], rest);
      InstrParts(PAD, pads[0], more);
      RunPads(program, pads[1..], rest, t.(code := more), outcome);
    }
  }

  /** An instruction with its PADs: loop2 sees exactly the compiled operands. */
  lemma OperandsAreRead(op: byte, arg: word, pads: seq<word>, s: Script, rest: seq<byte>)
    requires Proper(s) && Fenced(rest)
    ensures var code := Instr(op, arg) + Pads(pads, Compile(s, rest));
      HasInstr(code) && code[0] == op && Operand(code) == arg && PadOperands(code[3..]) == pads
      && code[3..] == Pads(pads, Compile(s, rest))
  {
    ScriptFences(s, rest);
    InstrParts(op, arg, Pads(pads, Compile(s, rest)));
    PadsAreRead(pads, Compile(s, rest));
  }

  function Size(s: Script): nat {
    match s
    case End => 0
    case Act(_, _, _, next) => 1 + Size(next)
    case If(_, _, _, thn, next) => 1 + Size(thn) + Size(next)
    case IfElse(_, _, _, thn, els, next) => 1 + Size(thn) + Size(els) + Size(next)
    case Call(_, next) => 1 + Size(next)
    case Follow(_, next) => 1 + Size(next)
    case Return(next) => 1 + Size(next)
    case Done(next) => 1 + Size(next)
  }

  function TotalSize(routines: seq<Routine>): nat {
    if routines == [] then 0 else 1 + Size(routines[0].body) + TotalSize(routines[1..])
  }

  lemma LeftPrepend(t: Task, e: Event, t1: Task, r: Result, rest: seq<byte>, u: Task)
    requires t1.trace == t.trace + [e] && t1.stack == t.stack && Left(t1, r, rest, u)
    ensures Left(t, Prepend(e, r), rest, u)
  {
    assert t.trace + [e] + r.events == t.trace + ([e] + r.events);
  }

  lemma LeftAppend(t: Task, r: Result, t1: Task, r1: Result, rest: seq<byte>, u: Task)
    requires t1.trace == t.trace + r.events && t1.stack == t.stack && Left(t1, r1, rest, u)
    ensures Left(t, Append(r, r1), rest, u)
  {
    assert t.trace + r.events + r1.events == t.trace + (r.events + r1.events);
  }

  /** Compiler correctness: from the compiled code of a script, and any number of callers, some number
      of loop2 calls does exactly what the script means and leaves it the way the script does. */
  lemma {:induction false} Simulates(program: Program, s: Script, rest: seq<byte>, t: Task, outcome: nat -> bool,
      follows: nat)
    returns (n: nat)
    requires ProperProgram(program) && Proper(s) && Fenced(rest)
    requires t.alive && t.code == Compile(s, rest) && |t.stack| <= MAX_STACK_DEPTH
    ensures Left(t, Meaning(program, s, |t.stack|, t.tests, outcome, follows), rest, Run(Link(program), t, outcome, n))
    decreases follows, MAX_STACK_DEPTH - |t.stack|, Size(s), 0
  {
    match s
    case End =>
      n := 0;
    case Act(op, arg, pads, next) =>
      n := SimulatesAct(program, op, arg, pads, next, rest, t, outcome, follows);
    case If(op, arg, pads, thn, next) =>
      n := SimulatesIf(program, op, arg, pads, thn, [], next, rest, t, outcome, follows);
    case IfElse(op, arg, pads, thn, els, next) =>
      n := SimulatesIf(program, op, arg, pads, thn, [els], next, rest, t, outcome, follows);
    case Call(id, next) =>
      n := SimulatesCall(program, id, next, rest, t, outcome, follows);
    case Follow(id, next) =>
      n := SimulatesFollow(program, id, next, rest, t, outcome, follows);
    case Return(next) =>
      n := SimulatesStop(program, s, rest, t, outcome, follows);
    case Done(next) =>
      n := SimulatesStop(program, s, rest, t, outcome, follows);
  }

  lemma SimulatesStop(program: Program, s: Script, rest: seq<byte>, t: Task, outcome: nat -> bool, follows: nat)
    returns (n: nat)
    requires s.Return? || s.Done?
    requires t.alive && t.code == Compile(s, rest) && |t.stack| <= MAX_STACK_DEPTH
    ensures Left(t, Meaning(program, s, |t.stack|, t.tests, outcome, follows), rest, Run(Link(program), t, outcome, n))
  {
    InstrParts(if s.Return? then RETURN else ENDTASK, 0, Compile(s.next, rest));
    n := 1;
    assert Run(Link(program), t, outcome, 1) == Step(Link(program), t, outcome);
  }

  lemma {:induction false} SimulatesAct(program: Program, op: byte, arg: word, pads: seq<word>, next: Script,
                                        rest: seq<byte>, t: Task, outcome: nat -> bool, follows: nat) returns (n: nat)
    requires ProperProgram(program) && IsAction(op) && Proper(next) && Fenced(rest)
    requires t.alive && t.code == Instr(op, arg) + Pads(pads, Compile(next, rest)) && |t.stack| <= MAX_STACK_DEPTH
    ensures Left(t, Prepend(Did(op, arg, pads), Meaning(program, next, |t.stack|, t.tests, outcome, follows)), rest,
                 Run(Link(program), t, outcome, n))
    decreases follows, MAX_STACK_DEPTH - |t.stack|, Size(next), 1
  {
    var route, e := Link(program), Did(op, arg, pads);
    OperandsAreRead(op, arg, pads, next, rest);
    var t1 := t.(trace := t.trace + [e], code := Pads(pads, Compile(next, rest)));
    assert Step(route, t, outcome) == t1;
    RunPads(program, pads, Compile(next, rest), t1, outcome);
    var t2 := t1.(code := Compile(next, rest));
    var m := Simulates(program, next, rest, t2, outcome, follows);
    RunTwice(route, t1, outcome, |pads|, m);
    n := 1 + (|pads| + m);
    LeftPrepend(t, e, t2, Meaning(program, next, |t.stack|, t.tests, outcome, follows), rest,
      Run(route, t, outcome, n));
  }

  /** A block of an IF, the ENDIF or the skipped ELSE part behind it, and then `next`. */
  lemma {:induction false} SimulatesBlock(program: Program, s: Script, els: seq<Script>, next: Script, rest: seq<byte>,
                                          t: Task, outcome: nat -> bool, follows: nat) returns (n: nat)
    requires ProperProgram(program) && Proper(s) && Proper(next) && Fenced(rest)
    requires |els| <= 1 && (els != [] ==> Proper(els[0]))
    requires t.alive && |t.stack| <= MAX_STACK_DEPTH && t.code == Compile(s, Tail(els, next, rest))
    ensures var r := Meaning(program, s, |t.stack|, t.tests, outcome, follows);
      Left(t, Then(program, r, next, |t.stack|, outcome), rest, Run(Link(program), t, outcome, n))
    decreases follows, MAX_STACK_DEPTH - |t.stack|, Size(s) + Size(next), 1
  {
    var route := Link(program);
    TailIsSkipped(els, next, rest);
    n := Simulates(program, s, Tail(els, next, rest), t, outcome, follows);
    var r := Meaning(program, s, |t.stack|, t.tests, outcome, follows);
    if r.exit.Fell? {
      var t1 := Run(route, t, outcome, n);
      var t2 := t1.(code := Compile(next, rest));
      assert Step(route, t1, outcome) == t2;
      var m := Simulates(program, next, rest, t2, outcome, r.follows);
      RunTwice(route, t, outcome, n, 1 + m);
      n := n + (1 + m);
      LeftAppend(t, r, t2, Meaning(program, next, |t.stack|, r.tests, outcome, r.follows), rest,
        Run(route, t, outcome, n));
    }
  }

  /** What is behind the first block of an IF. */
  function Tail(els: seq<Script>, next: Script, rest: seq<byte>): seq<byte> {
    if els == [] then Instr(ENDIF, 0) + Compile(next, rest)
    else Instr(ELSE, 0) + Compile(els[0], Instr(ENDIF, 0) + Compile(next, rest))
  }

  /** A finished block goes on with `next`, one left otherwise does not. */
  ghost function Then(program: Program, r: Result, next: Script, depth: nat, outcome: nat -> bool): Result
    requires depth <= MAX_STACK_DEPTH
  {
    if r.exit.Fell? then Append(r, Meaning(program, next, depth, r.tests, outcome, r.follows)) else r
  }

  /** At the end of a block, one loop2 call gets to `next`: by the ENDIF, or over the ELSE part. */
  lemma TailIsSkipped(els: seq<Script>, next: Script, rest: seq<byte>)
    requires |els| <= 1 && (els != [] ==> Proper(els[0]))
    ensures Fenced(Tail(els, next, rest))
    ensures var code := Tail(els, next, rest);
      if els == [] then code[0] == ENDIF && code[3..] == Compile(next, rest)
      else code[0] == ELSE && SkipIfBlock(code[3..], 1) == Instr(ENDIF, 0) + Compile(next, rest)
           && SkipIfBlock(code[3..], 1)[3..] == Compile(next, rest)
  {
    var c := Instr(ENDIF, 0) + Compile(next, rest);
    InstrParts(ENDIF, 0, Compile(next, rest));
    if els != [] {
      InstrParts(ELSE, 0, Compile(els[0], c));
      SkipScript(els[0], c, 1);
      SkipInstr(ENDIF, 0, Compile(next, rest), 1);
    }
  }

  /** A false IF lands behind its ELSE if it has one, and behind its ENDIF if not. */
  lemma FalseIfSkips(pads: seq<word>, thn: Script, els: seq<Script>, next: Script, rest: seq<byte>)
    requires Proper(thn) && |els| <= 1
    ensures var at := SkipIfBlock(Pads(pads, Compile(thn, Tail(els, next, rest))), 1);
      var end := Instr(ENDIF, 0) + Compile(next, rest);
      at != [] && at[3..] == if els == [] then Compile(next, rest) else Compile(els[0], end)
  {
    var c := Instr(ENDIF, 0) + Compile(next, rest);
    var tail := Tail(els, next, rest);
    SkipPads(pads, Compile(thn, tail), 1);
    SkipScript(thn, tail, 1);
    if els == [] {
      SkipInstr(ENDIF, 0, Compile(next, rest), 1);
      InstrParts(ENDIF, 0, Compile(next, rest));
    } else {
      SkipInstr(ELSE, 0, Compile(els[0], c), 1);
      InstrParts(ELSE, 0, Compile(els[0], c));
    }
  }

  /** IF with and without ELSE (`els` has one element or none). */
  lemma {:induction false} SimulatesIf(program: Program, op: byte, arg: word, pads: seq<word>, thn: Script,
      els: seq<Script>, next: Script, rest: seq<byte>, t: Task, outcome: nat -> bool, follows: nat)
    returns (n: nat)
    requires ProperProgram(program) && IsIf(op) && Proper(thn) && Proper(next) && Fenced(rest)
    requires |els| <= 1 && (els != [] ==> Proper(els[0]))
    requires t.alive && |t.stack| <= MAX_STACK_DEPTH
    requires t.code == Instr(op, arg) + Pads(pads, Compile(thn, Tail(els, next, rest)))
    ensures var s := if els == [] then If(op, arg, pads, thn, next) else IfElse(op, arg, pads, thn, els[0], next);
      Left(t, Meaning(program, s, |t.stack|, t.tests, outcome, follows), rest, Run(Link(program), t, outcome, n))
    decreases follows, MAX_STACK_DEPTH - |t.stack|, Size(thn) + (if els == [] then 0 else Size(els[0])) + Size(next), 3
  {
    hide Compile, Run, Left, Fenced, Proper;
    TailIsSkipped(els, next, rest);
    OperandsAreRead(op, arg, pads, thn, Tail(els, next, rest));
    if outcome(t.tests) {
      n := SimulatesTrueIf(program, op, arg, pads, thn, els, next, rest, t, outcome, follows);
    } else {
      n := SimulatesFalseIf(program, op, arg, pads, thn, els, next, rest, t, outcome, follows);
    }
  }

  lemma {:induction false} SimulatesTrueIf(program: Program, op: byte, arg: word, pads: seq<word>, thn: Script,
      els: seq<Script>, next: Script, rest: seq<byte>, t: Task, outcome: nat -> bool, follows: nat)
    returns (n: nat)
    requires ProperProgram(program) && IsIf(op) && Proper(thn) && Proper(next) && Fenced(rest) && outcome(t.tests)
    requires |els| <= 1 && (els != [] ==> Proper(els[0]))
    requires t.alive && |t.stack| <= MAX_STACK_DEPTH && HasInstr(t.code) && t.code[0] == op && Operand(t.code) == arg
    requires t.code[3..] == Pads(pads, Compile(thn, Tail(els, next, rest))) && PadOperands(t.code[3..]) == pads
    ensures Left(t, Prepend(Tested(op, arg, pads, true),
                            Then(program, Meaning(program, thn, |t.stack|, t.tests + 1, outcome, follows),
                                 next, |t.stack|, outcome)),
                 rest, Run(Link(program), t, outcome, n))
    decreases follows, MAX_STACK_DEPTH - |t.stack|, Size(thn) + (if els == [] then 0 else Size(els[0])) + Size(next), 2
  {
    var route, e := Link(program), Tested(op, arg, pads, true);
    var block := Compile(thn, Tail(els, next, rest));
    var t2 := t.(trace := t.trace + [e], tests := t.tests + 1, code := Pads(pads, block));
    assert Step(route, t, outcome) == t2;
    RunPads(program, pads, block, t2, outcome);
    var t3 := t2.(code := block);
    var m := SimulatesBlock(program, thn, els, next, rest, t3, outcome, follows);
    RunTwice(route, t2, outcome, |pads|, m);
    n := 1 + (|pads| + m);
    var r := Meaning(program, thn, |t.stack|, t3.tests, outcome, follows);
    LeftPrepend(t, e, t3, Then(program, r, next, |t.stack|, outcome), rest, Run(route, t, outcome, n));
  }

  lemma {:induction false} SimulatesFalseIf(program: Program, op: byte, arg: word, pads: seq<word>, thn: Script,
      els: seq<Script>, next: Script, rest: seq<byte>, t: Task, outcome: nat -> bool, follows: nat)
    returns (n: nat)
    requires ProperProgram(program) && IsIf(op) && Proper(thn) && Proper(next) && Fenced(rest) && !outcome(t.tests)
    requires |els| <= 1 && (els != [] ==> Proper(els[0]))
    requires t.alive && |t.stack| <= MAX_STACK_DEPTH && HasInstr(t.code) && t.code[0] == op && Operand(t.code) == arg
    requires t.code[3..] == Pads(pads, Compile(thn, Tail(els, next, rest))) && PadOperands(t.code[3..]) == pads
    ensures Left(t, Prepend(Tested(op, arg, pads, false),
                            if els == [] then Meaning(program, next, |t.stack|, t.tests + 1, outcome, follows)
                            else Then(program, Meaning(program, els[0], |t.stack|, t.tests + 1, outcome, follows),
                                      next, |t.stack|, outcome)),
                 rest, Run(Link(program), t, outcome, n))
    decreases follows, MAX_STACK_DEPTH - |t.stack|, Size(thn) + (if els == [] then 0 else Size(els[0])) + Size(next), 2
  {
    var route, e := Link(program), Tested(op, arg, pads, false);
    var depth := |t.stack|;
    FalseIfSkips(pads, thn, els, next, rest);
    var t2 := t.(trace := t.trace + [e], tests := t.tests + 1,
                 code := if els == [] then Compile(next, rest) else Compile(els[0], Tail([], next, rest)));
    assert Step(route, t, outcome) == t2;
    var m;
    if els == [] {
      m := Simulates(program, next, rest, t2, outcome, follows);
      LeftPrepend(t, e, t2, Meaning(program, next, depth, t2.tests, outcome, follows), rest,
        Run(route, t2, outcome, m));
    } else {
      m := SimulatesBlock(program, els[0], [], next, rest, t2, outcome, follows);
      var r := Meaning(program, els[0], depth, t2.tests, outcome, follows);
      LeftPrepend(t, e, t2, Then(program, r, next, depth, outcome), rest, Run(route, t2, outcome, m));
    }
    n := 1 + m;
  }

  lemma CallMeans(program: Program, id: word, next: Script, depth: nat, tests: nat, outcome: nat -> bool, follows: nat)
    requires depth <= MAX_STACK_DEPTH
    ensures Meaning(program, Call(id, next), depth, tests, outcome, follows) ==
      var to := Lookup(program.routines, id);
      if depth == MAX_STACK_DEPTH || to == [] then Result([], tests, follows, Killed)
      else
        var r := Falling(program, to, depth + 1, tests, outcome, follows);
        if r.exit.Returned? then Append(r, Meaning(program, next, depth, r.tests, outcome, r.follows)) else r
  {
    hide Append, Lookup;
  }

  lemma {:induction false} SimulatesCall(program: Program, id: word, next: Script, rest: seq<byte>,
                                         t: Task, outcome: nat -> bool, follows: nat) returns (n: nat)
    requires ProperProgram(program) && Proper(next) && Fenced(rest)
    requires t.alive && |t.stack| <= MAX_STACK_DEPTH && t.code == Instr(CALL, id) + Compile(next, rest)
    ensures Left(t, Meaning(program, Call(id, next), |t.stack|, t.tests, outcome, follows), rest,
                 Run(Link(program), t, outcome, n))
    decreases follows, MAX_STACK_DEPTH - |t.stack|, Size(next), 1
  {
    hide Compile, Fenced, Proper, FindKind, Find, Link, Meaning, Falling, Lookup, ProperRoutines;
    CallMeans(program, id, next, |t.stack|, t.tests, outcome, follows);
    var route, to := Link(program), Lookup(program.routines, id);
    InstrParts(CALL, id, Compile(next, rest));
    FindsRoutine(program, id);
    LookupIsProper(program.routines, id);
    assert Run(route, t, outcome, 1) == Step(route, t, outcome);
    n := 1;
    if |t.stack| < MAX_STACK_DEPTH && to != [] {
      var t1 := t.(stack := t.stack + [Compile(next, rest)], code := Code(to));
      assert Step(route, t, outcome) == t1;
      var m := SimulatesRoutines(program, to, t1, outcome, follows);
      var r := Falling(program, to, |t.stack| + 1, t.tests, outcome, follows);
      n := 1 + m;
      if r.exit.Returned? {
        var t2 := t.(trace := t.trace + r.events, tests := r.tests, code := Compile(next, rest));
        assert Run(route, t, outcome, n) == t2;
        var k := Simulates(program, next, rest, t2, outcome, r.follows);
        RunTwice(route, t, outcome, n, k);
        n := n + k;
        LeftAppend(t, r, t2, Meaning(program, next, |t.stack|, r.tests, outcome, r.follows), rest,
                   Run(route, t, outcome, n));
      }
    }
  }

  lemma {:induction false} SimulatesFollow(program: Program, id: word, next: Script, rest: seq<byte>,
                                           t: Task, outcome: nat -> bool, follows: nat) returns (n: nat)
    requires ProperProgram(program)
    requires t.alive && |t.stack| <= MAX_STACK_DEPTH && t.code == Instr(FOLLOW, id) + Compile(next, rest)
    ensures Left(t, Meaning(program, Follow(id, next), |t.stack|, t.tests, outcome, follows), rest,
                 Run(Link(program), t, outcome, n))
    decreases follows, MAX_STACK_DEPTH - |t.stack|, Size(next), 1
  {
    hide Compile, Find, Link, Falling, ProperRoutines;
    var route, to := Link(program), Lookup(program.routines, id);
    InstrParts(FOLLOW, id, Compile(next, rest));
    FindsRoutine(program, id);
    LookupIsProper(program.routines, id);
    n := 0;
    if follows > 0 {
      assert Run(route, t, outcome, 1) == Step(route, t, outcome);
      n := 1;
      if to != [] {
        var t1 := t.(code := Code(to));
        assert Step(route, t, outcome) == t1;
        var m := SimulatesRoutines(program, to, t1, outcome, follows - 1);
        n := 1 + m;
      }
    }
  }

  /** Routines that were called or followed, or that a task starts with: they come back to the caller, if there
      is one, by the first RETURN they get to, and fall through into each other before that. */
  lemma {:induction false} SimulatesRoutines(program: Program, routines: seq<Routine>, t: Task, outcome: nat -> bool,
                                             follows: nat) returns (n: nat)
    requires ProperProgram(program) && ProperRoutines(routines)
    requires t.alive && |t.stack| <= MAX_STACK_DEPTH && t.code == Code(routines)
    ensures Left(t, Falling(program, routines, |t.stack|, t.tests, outcome, follows), [],
      Run(Link(program), t, outcome, n))
    decreases follows, MAX_STACK_DEPTH - |t.stack|, TotalSize(routines), 4
  {
    hide Compile, Link, ProperRoutine, Lookup;
    var route := Link(program);
    assert Run(route, t, outcome, 1) == Step(route, t, outcome);
    if routines == [] {
      InstrParts(ENDTASK, 0, Instr(ENDEXRAIL, 0));
      n := 1;
    } else {
      var first, more := routines[0], routines[1..];
      var t1 := t.(code := Compile(first.body, Code(more)));
      HeaderIsPassed(program, routines, t, outcome);
      CodeFences(more);
      var m := SimulatesFalling(program, first.body, more, t1, outcome, follows);
      n := 1 + m;
    }
  }

  lemma HeaderIsPassed(program: Program, routines: seq<Routine>, t: Task, outcome: nat -> bool)
    requires ProperRoutines(routines) && routines != [] && t.alive && t.code == Code(routines)
    ensures Proper(routines[0].body) && ProperRoutines(routines[1..])
    ensures Step(Link(program), t, outcome) == t.(code := Compile(routines[0].body, Code(routines[1..])))
  {
    hide Compile, Proper, Find;
    InstrParts(routines[0].kind, routines[0].id, Compile(routines[0].body, Code(routines[1..])));
  }

  /** A script at the top of the file, which falls through into the routines behind it. */
  ghost function FromTop(program: Program, s: Script, routines: seq<Routine>, depth: nat, tests: nat,
                         outcome: nat -> bool, follows: nat): Result
    requires depth <= MAX_STACK_DEPTH
  {
    var r := Meaning(program, s, depth, tests, outcome, follows);
    if r.exit.Fell? then Append(r, Falling(program, routines, depth, r.tests, outcome, r.follows)) else r
  }

  lemma {:induction false} SimulatesFalling(program: Program, s: Script, routines: seq<Routine>, t: Task,
                                            outcome: nat -> bool, follows: nat) returns (n: nat)
    requires ProperProgram(program) && Proper(s) && ProperRoutines(routines)
    requires t.alive && |t.stack| <= MAX_STACK_DEPTH && t.code == Compile(s, Code(routines))
    ensures Left(t, FromTop(program, s, routines, |t.stack|, t.tests, outcome, follows), [],
                 Run(Link(program), t, outcome, n))
    decreases follows, MAX_STACK_DEPTH - |t.stack|, Size(s) + TotalSize(routines), 5
  {
    hide Compile, Link, Meaning, Falling, Proper, ProperRoutines, Code;
    var route := Link(program);
    CodeFences(routines);
    n := Simulates(program, s, Code(routines), t, outcome, follows);
    var r := Meaning(program, s, |t.stack|, t.tests, outcome, follows);
    if r.exit.Fell? {
      var t1 := Run(route, t, outcome, n);
      var m := SimulatesRoutines(program, routines, t1, outcome, r.follows);
      RunTwice(route, t, outcome, n, m);
      n := n + m;
      LeftAppend(t, r, t1, Falling(program, routines, |t.stack|, r.tests, outcome, r.follows), [],
                 Run(route, t, outcome, n));
    }
  }

  /** `s` is what is left of a script at one of the statements at its top. */
  predicate TailOf(s: Script, whole: Script) {
    s == whole || (!whole.End? && TailOf(s, whole.next))
  }

  /** At a statement at the top of a script file: in front of the routines, or in the first of some of them. */
  ghost predicate AtTop(program: Program, s: Script, routines: seq<Routine>) {
    || (TailOf(s, program.start) && routines == program.routines)
    || exists k | 0 <= k < |program.routines| ::
         TailOf(s, program.routines[k].body) && routines == program.routines[k + 1..]
  }

  predicate EndsWith(code: seq<byte>, part: seq<byte>) {
    |part| <= |code| && code[|code| - |part|..] == part
  }

  lemma EndsBehind(front: seq<byte>, code: seq<byte>, part: seq<byte>)
    requires EndsWith(code, part)
    ensures EndsWith(front + code, part)
  {
    var k := |front + code| - |part|;
    assert (front + code)[k..] == code[k - |front|..];
  }

  lemma {:induction false} EndsBehindPads(pads: seq<word>, code: seq<byte>, part: seq<byte>)
    requires EndsWith(code, part)
    ensures EndsWith(Pads(pads, code), part)
    decreases |pads|
  {
    if pads != [] {
      EndsBehindPads(pads[1..], code, part);
      EndsBehind(Instr(PAD, pads[0]), Pads(pads[1..], code), part);
    }
  }

  /** Compiled code has what follows it at its end. */
  lemma {:induction false} CodeEnds(s: Script, rest: seq<byte>, part: seq<byte>)
    requires EndsWith(rest, part)
    ensures EndsWith(Compile(s, rest), part)
    decreases s, 1
  {
    hide EndsWith;
    if !s.End? {
      CodeEnds(s.next, rest, part);
      StatementEnds(s, rest, part);
    }
  }

  /** A statement is in front of what is behind it. */
  lemma {:induction false} StatementEnds(s: Script, rest: seq<byte>, part: seq<byte>)
    requires !s.End? && EndsWith(Compile(s.next, rest), part)
    ensures EndsWith(Compile(s, rest), part)
    decreases s, 0
  {
    hide EndsWith, Instr;
    var more := Compile(s.next, rest);
    match s
    case Act(op, arg, pads, next) =>
      BlockEnds(op, arg, pads, more, part);
    case If(op, arg, pads, thn, next) =>
      EndsBehind(Instr(ENDIF, 0), more, part);
      CodeEnds(thn, Instr(ENDIF, 0) + more, part);
      BlockEnds(op, arg, pads, Compile(thn, Instr(ENDIF, 0) + more), part);
    case IfElse(op, arg, pads, thn, els, next) =>
      EndsBehind(Instr(ENDIF, 0), more, part);
      CodeEnds(els, Instr(ENDIF, 0) + more, part);
      var other := Instr(ELSE, 0) + Compile(els, Instr(ENDIF, 0) + more);
      EndsBehind(Instr(ELSE, 0), Compile(els, Instr(ENDIF, 0) + more), part);
      CodeEnds(thn, other, part);
      BlockEnds(op, arg, pads, Compile(thn, other), part);
    case Call(route, next) => EndsBehind(Instr(CALL, route), more, part);
    case Follow(route, next) => EndsBehind(Instr(FOLLOW, route), more, part);
    case Return(next) => EndsBehind(Instr(RETURN, 0), more, part);
    case Done(next) => EndsBehind(Instr(ENDTASK, 0), more, part);
  }

  lemma BlockEnds(op: byte, arg: word, pads: seq<word>, code: seq<byte>, part: seq<byte>)
    requires EndsWith(code, part)
    ensures EndsWith(Instr(op, arg) + Pads(pads, code), part)
  {
    hide EndsWith, Instr, Pads;
    EndsBehindPads(pads, code, part);
    EndsBehind(Instr(op, arg), Pads(pads, code), part);
  }

  lemma {:induction false} TailEnds(s: Script, whole: Script, rest: seq<byte>)
    requires Proper(whole) && TailOf(s, whole)
    ensures Proper(s) && EndsWith(Compile(whole, rest), Compile(s, rest))
    decreases whole
  {
    if s != whole {
      TailEnds(s, whole.next, rest);
      StatementEnds(whole, rest, Compile(s, rest));
    }
  }

  lemma {:induction false} RoutinesEnd(routines: seq<Routine>, k: nat)
    requires ProperRoutines(routines) && k <= |routines|
    ensures ProperRoutines(routines[k..]) && EndsWith(Code(routines), Code(routines[k..]))
    decreases k
  {
    if k == 0 {
      assert routines[0..] == routines;
    } else {
      var first, more := routines[0], routines[1..];
      RoutinesEnd(more, k - 1);
      assert more[k - 1..] == routines[k..];
      CodeEnds(first.body, Code(more), Code(more[k - 1..]));
      EndsBehind(Instr(first.kind, first.id), Compile(first.body, Code(more)), Code(more[k - 1..]));
    }
  }

  /** A statement at the top of the file is at a place in the route code. */
  lemma TopIsInCode(program: Program, s: Script, routines: seq<Routine>)
    requires ProperProgram(program) && AtTop(program, s, routines)
    ensures Proper(s) && ProperRoutines(routines) && EndsWith(Link(program), Compile(s, Code(routines)))
  {
    hide EndsWith, Compile, Proper;
    var all := program.routines;
    if TailOf(s, program.start) && routines == all {
      TailEnds(s, program.start, Code(routines));
    } else {
      var k :| 0 <= k < |all| && TailOf(s, all[k].body) && routines == all[k + 1..];
      var r := all[k];
      RoutinesEnd(all, k);
      RoutinesEnd(all, k + 1);
      assert all[k..][0] == r && all[k..][1..] == routines;
      TailEnds(s, r.body, Code(routines));
      var part := Compile(s, Code(routines));
      EndsBehind(Instr(r.kind, r.id), Compile(r.body, Code(routines)), part);
      EndsTwice(Code(all), Code(all[k..]), part);
      CodeEnds(program.start, Code(all), part);
    }
  }

  lemma EndsTwice(code: seq<byte>, middle: seq<byte>, part: seq<byte>)
    requires EndsWith(code, middle) && EndsWith(middle, part)
    ensures EndsWith(code, part)
  {
    var k := |code| - |middle|;
    assert code == code[..k] + middle;
    EndsBehind(code[..k], middle, part);
  }

  /** Main result: a task that starts at any statement at the top of a script file, as AUTOSTART and the event
      catchers make it, does exactly what the structured program means, up to any number of FOLLOWs; unless it
      has to pause at one more, that is its whole life and it is gone. */
  lemma TaskDoesWhatScriptMeans(program: Program, s: Script, routines: seq<Routine>, outcome: nat -> bool,
                                follows: nat) returns (n: nat)
    requires ProperProgram(program) && AtTop(program, s, routines)
    ensures EndsWith(Link(program), Compile(s, Code(routines)))
    ensures var u := Run(Link(program), Task(true, Compile(s, Code(routines)), [], 0, []), outcome, n);
      var r := FromTop(program, s, routines, 0, 0, outcome, follows);
      u.trace == r.events && (u.alive <==> r.exit.Paused?)
  {
    hide EndsWith, Compile, Code, AtTop, Run, Meaning, Falling;
    TopIsInCode(program, s, routines);
    var t := Task(true, Compile(s, Code(routines)), [], 0, []);
    n := SimulatesFalling(program, s, routines, t, outcome, follows);
  }

  /** Main result: the same for a task that is created for a route, automation or sequence. */
  lemma RouteDoesWhatScriptMeans(program: Program, id: word, outcome: nat -> bool, follows: nat) returns (n: nat)
    requires ProperProgram(program) && Lookup(program.routines, id) != []
    ensures var u := Run(Link(program), Task(true, Find(Link(program), id), [], 0, []), outcome, n);
      var r := Falling(program, Lookup(program.routines, id), 0, 0, outcome, follows);
      u.trace == r.events && (u.alive <==> r.exit.Paused?)
  {
    hide Run, Falling, Lookup, Code, Find, Link;
    FindsRoutine(program, id);
    LookupIsProper(program.routines, id);
    var t := Task(true, Find(Link(program), id), [], 0, []);
    n := SimulatesRoutines(program, Lookup(program.routines, id), t, outcome, follows);
  }

  // ---------- More FOLLOWs ----------

  /** The same as far as it goes: to the end, or to where the first one pauses. */
  predicate Continues(r: Result, more: Result) {
    if r.exit.Paused? then r.follows == 0 && r.events <= more.events else more == r.(follows := r.follows + 1)
  }

  lemma AppendContinues(r: Result, more: Result, next: Result, nextMore: Result)
    requires Continues(r, more) && (!r.exit.Paused? ==> Continues(next, nextMore))
    ensures Continues(if r.exit.Fell? then Append(r, next) else r,
                      if more.exit.Fell? then Append(more, nextMore) else more)
    ensures Continues(if r.exit.Returned? then Append(r, next) else r,
                      if more.exit.Returned? then Append(more, nextMore) else more)
  {
  }

  lemma PrependContinues(e: Event, r: Result, more: Result)
    requires Continues(r, more)
    ensures Continues(Prepend(e, r), Prepend(e, more))
  {
  }

  /** Allowing one more FOLLOW only adds to what a script does before it pauses. */
  lemma {:induction false} MoreFollows(program: Program, s: Script, depth: nat, tests: nat, outcome: nat -> bool,
                                       follows: nat)
    requires depth <= MAX_STACK_DEPTH
    ensures Continues(Meaning(program, s, depth, tests, outcome, follows),
                      Meaning(program, s, depth, tests, outcome, follows + 1))
    decreases follows, MAX_STACK_DEPTH - depth, 0, s, 1
  {
    hide Append, Prepend, Lookup, Falling;
    match s
    case End =>
    case Act(op, arg, pads, next) =>
      MoreFollows(program, next, depth, tests, outcome, follows);
      PrependContinues(Did(op, arg, pads), Meaning(program, next, depth, tests, outcome, follows),
                       Meaning(program, next, depth, tests, outcome, follows + 1));
    case If(op, arg, pads, thn, next) =>
      if outcome(tests) {
        MoreInIf(program, s, op, arg, pads, thn, next, depth, tests, outcome, follows);
      } else {
        MoreFollows(program, next, depth, tests + 1, outcome, follows);
        PrependContinues(Tested(op, arg, pads, false), Meaning(program, next, depth, tests + 1, outcome, follows),
                         Meaning(program, next, depth, tests + 1, outcome, follows + 1));
      }
    case IfElse(op, arg, pads, thn, els, next) =>
      MoreInIf(program, s, op, arg, pads, if outcome(tests) then thn else els, next, depth, tests, outcome, follows);
    case Call(route, next) =>
      var to := Lookup(program.routines, route);
      if depth < MAX_STACK_DEPTH && to != [] {
        MoreFalling(program, to, depth + 1, tests, outcome, follows);
        var r := Falling(program, to, depth + 1, tests, outcome, follows);
        var more := Falling(program, to, depth + 1, tests, outcome, follows + 1);
        MoreFollows(program, next, depth, r.tests, outcome, r.follows);
        AppendContinues(r, more, Meaning(program, next, depth, r.tests, outcome, r.follows),
                        Meaning(program, next, depth, more.tests, outcome, more.follows));
      }
    case Follow(route, _) =>
      var to := Lookup(program.routines, route);
      if follows > 0 && to != [] {
        MoreFalling(program, to, depth, tests, outcome, follows - 1);
      }
    case Return(_) =>
    case Done(_) =>
  }

  /** The same for a script that falls through into further routines. */
  lemma {:induction false} MoreFalling(program: Program, routines: seq<Routine>, depth: nat, tests: nat,
                                       outcome: nat -> bool, follows: nat)
    requires depth <= MAX_STACK_DEPTH
    ensures Continues(Falling(program, routines, depth, tests, outcome, follows),
                      Falling(program, routines, depth, tests, outcome, follows + 1))
    decreases follows, MAX_STACK_DEPTH - depth, 1, |routines|
  {
    hide Append, Meaning;
    if routines != [] {
      var body, rest := routines[0].body, routines[1..];
      MoreFollows(program, body, depth, tests, outcome, follows);
      var r := Meaning(program, body, depth, tests, outcome, follows);
      var more := Meaning(program, body, depth, tests, outcome, follows + 1);
      MoreFalling(program, rest, depth, r.tests, outcome, r.follows);
      AppendContinues(r, more, Falling(program, rest, depth, r.tests, outcome, r.follows),
                      Falling(program, rest, depth, more.tests, outcome, more.follows));
    }
  }

  lemma {:induction false} MoreInIf(program: Program, s: Script, op: byte, arg: word, pads: seq<word>, block: Script,
                                    next: Script, depth: nat, tests: nat, outcome: nat -> bool, follows: nat)
    requires depth <= MAX_STACK_DEPTH && block < s && next < s
    ensures var r := Meaning(program, block, depth, tests + 1, outcome, follows);
      var more := Meaning(program, block, depth, tests + 1, outcome, follows + 1);
      var e := Tested(op, arg, pads, outcome(tests));
      Continues(
        Prepend(e, if r.exit.Fell? then Append(r, Meaning(program, next, depth, r.tests, outcome, r.follows)) else r),
        Prepend(e, if more.exit.Fell? then
                     Append(more, Meaning(program, next, depth, more.tests, outcome, more.follows))
                   else more))
    decreases follows, MAX_STACK_DEPTH - depth, 0, s, 0
  {
    hide Append, Prepend, Meaning;
    MoreFollows(program, block, depth, tests + 1, outcome, follows);
    var r := Meaning(program, block, depth, tests + 1, outcome, follows);
    var more := Meaning(program, block, depth, tests + 1, outcome, follows + 1);
    MoreFollows(program, next, depth, r.tests, outcome, r.follows);
    var last := Meaning(program, next, depth, r.tests, outcome, r.follows);
    var lastMore := Meaning(program, next, depth, more.tests, outcome, more.follows);
    AppendContinues(r, more, last, lastMore);
    PrependContinues(Tested(op, arg, pads, outcome(tests)), if r.exit.Fell? then Append(r, last) else r,
                     if more.exit.Fell? then Append(more, lastMore) else more);
  }
}

/** EXRAIL scripts and the route code that the last pass of EXRAILMacros.h makes of them. */
module ExrailScript {
  import opened Bytes

  type word = x: int | 0 <= x < 0x1_0000

  // Opcodes, with their places in the enum of EXRAIL2.h.
  const ENDIF: byte := 26
  const ELSE: byte := 27
  const PAD: byte := 48
  const FOLLOW: byte := 49
  const CALL: byte := 50
  const RETURN: byte := 51
  const ROUTE: byte := 79
  const AUTOMATION: byte := 80
  const SEQUENCE: byte := 81
  const ENDTASK: byte := 82
  const ENDEXRAIL: byte := 83
  const IF_TYPE_OPCODES: byte := 140
  const LAST_OPCODE: byte := 163

  const MAX_STACK_DEPTH: nat := 4

  /** The opcodes whose case in loop2 breaks or waits and does not touch the program counter: all but skips,
      jumps, the ends of tasks, the headers of routines, and the opcodes that loop2 has no case for.  Those
      that start another task or pause the others are actions of the task that runs them.  AUTOSTART, the
      event catchers and the definitions of turnouts are actions without an effect. */
  predicate IsAction(op: byte) {
    && op < IF_TYPE_OPCODES
    && op !in {ENDIF, ELSE, PAD, FOLLOW, CALL, RETURN, ENDTASK, ENDEXRAIL}
    && op !in {ROUTE, AUTOMATION, SEQUENCE}
    && op !in {78, 137, 138}        // KILLALL, RANDOM_CALL, RANDOM_FOLLOW
    && op !in {45, 77, 90, 119}     // SIGNAL, ROSTER, ONCLOCKTIME, ONVP_SENSOR: no case in loop2
    && op !in {106, 107}            // ONRAILSYNCON, ONRAILSYNCOFF: no case without BOOSTER_INPUT
  }

  predicate IsIf(op: byte) {
    IF_TYPE_OPCODES < op <= LAST_OPCODE
  }

  /** A structured script.  The first argument is the operand, the others are its PADs. */
  datatype Script =
    | End
    | Act(op: byte, arg: word, pads: seq<word>, next: Script)
    | If(op: byte, arg: word, pads: seq<word>, thn: Script, next: Script)
    | IfElse(op: byte, arg: word, pads: seq<word>, thn: Script, els: Script, next: Script)
    | Call(route: word, next: Script)
    | Follow(route: word, next: Script)
    | Return(next: Script)
    | Done(next: Script)

  predicate Proper(s: Script) {
    match s
    case End => true
    case Act(op, _, _, next) => IsAction(op) && Proper(next)
    case If(op, _, _, thn, next) => IsIf(op) && Proper(thn) && Proper(next)
    case IfElse(op, _, _, thn, els, next) => IsIf(op) && Proper(thn) && Proper(els) && Proper(next)
    case Call(_, next) => Proper(next)
    case Follow(_, next) => Proper(next)
    case Return(next) => Proper(next)
    case Done(next) => Proper(next)
  }

  /** The macro V: two bytes, low one first. */
  function Instr(op: byte, arg: word): seq<byte> {
    [op, arg % 256, arg / 256]
  }

  function Pads(pads: seq<word>, rest: seq<byte>): seq<byte> {
    if pads == [] then rest else Instr(PAD, pads[0]) + Pads(pads[1..], rest)
  }

  /** The route code of a script, with what comes after it. */
  function Compile(s: Script, rest: seq<byte>): seq<byte> {
    match s
    case End => rest
    case Act(op, arg, pads, next) => Instr(op, arg) + Pads(pads, Compile(next, rest))
    case If(op, arg, pads, thn, next) =>
      Instr(op, arg) + Pads(pads, Compile(thn, Instr(ENDIF, 0) + Compile(next, rest)))
    case IfElse(op, arg, pads, thn, els, next) =>
      Instr(op, arg) +
      Pads(pads, Compile(thn, Instr(ELSE, 0) + Compile(els, Instr(ENDIF, 0) + Compile(next, rest))))
    case Call(route, next) => Instr(CALL, route) + Compile(next, rest)
    case Follow(route, next) => Instr(FOLLOW, route) + Compile(next, rest)
    case Return(next) => Instr(RETURN, 0) + Compile(next, rest)
    case Done(next) => Instr(ENDTASK, 0) + Compile(next, rest)
  }

  /** SEQUENCE(id), ROUTE(id) or AUTOMATION(id), and what follows up to the next of these or the end. */
  datatype Routine = Routine(kind: byte, id: word, body: Script)

  /** A script file: what is in front of the first routine, and the routines. */
  datatype Program = Program(start: Script, routines: seq<Routine>)

  predicate ProperRoutine(r: Routine) {
    r.kind in {ROUTE, AUTOMATION, SEQUENCE} && Proper(r.body)
  }

  /** The route code from some routine on, to the ENDTASK and ENDEXRAIL behind the script file. */
  function Code(routines: seq<Routine>): seq<byte> {
    if routines == [] then Instr(ENDTASK, 0) + Instr(ENDEXRAIL, 0)
    else Instr(routines[0].kind, routines[0].id) + Compile(routines[0].body, Code(routines[1..]))
  }

  /** RMFT2::RouteCode */
  function Link(program: Program): seq<byte> {
    Compile(program.start, Code(program.routines))
  }

  // ---------- What a script means ----------

  /** What a run does: actions with their operands, conditions with what they turned out, and waits, in
      which an instruction may stop the loco or start its timer again before it is tried once more. */
  datatype Event =
    | Did(op: byte, arg: word, pads: seq<word>)
    | Tested(op: byte, arg: word, pads: seq<word>, outcome: bool)
    | Waited(op: byte, arg: word)

  /** Paused: at a FOLLOW beyond those that were to be run. */
  datatype Exit = Fell | Returned | Killed | Paused

  /** Events in order, how many conditions have been tested so far, how many more FOLLOWs may be run, and
      how the script was left. */
  datatype Result = Result(events: seq<Event>, tests: nat, follows: nat, exit: Exit)

  function Prepend(e: Event, r: Result): Result {
    r.(events := [e] + r.events)
  }

  function Append(r: Result, more: Result): Result {
    more.(events := r.events + more.events)
  }

  /** The routines from the one with this id on, or none. */
  function Lookup(routines: seq<Routine>, id: word): seq<Routine> {
    if routines == [] || routines[0].id == id then routines else Lookup(routines[1..], id)
  }

  /** The structured meaning up to some number of FOLLOWs, which is how scripts make endless loops:
      `outcome(n)` is what the n-th tested condition turns out to be.  A call below MAX_STACK_DEPTH others,
      to an unknown routine, or a return from none kills the task. */
  function Meaning(program: Program, s: Script, depth: nat, tests: nat, outcome: nat -> bool, follows: nat): (r: Result)
    requires depth <= MAX_STACK_DEPTH
    ensures r.follows <= follows
    decreases follows, MAX_STACK_DEPTH - depth, 0, s
  {
    match s
    case End => Result([], tests, follows, Fell)
    case Act(op, arg, pads, next) =>
      Prepend(Did(op, arg, pads), Meaning(program, next, depth, tests, outcome, follows))
    case If(op, arg, pads, thn, next) =>
      var b := outcome(tests);
      Prepend(Tested(op, arg, pads, b),
              if b then
                var r := Meaning(program, thn, depth, tests + 1, outcome, follows);
                if r.exit.Fell? then Append(r, Meaning(program, next, depth, r.tests, outcome, r.follows)) else r
              else Meaning(program, next, depth, tests + 1, outcome, follows))
    case IfElse(op, arg, pads, thn, els, next) =>
      var b := outcome(tests);
      var r := if b then Meaning(program, thn, depth, tests + 1, outcome, follows)
               else Meaning(program, els, depth, tests + 1, outcome, follows);
      Prepend(Tested(op, arg, pads, b),
              if r.exit.Fell? then Append(r, Meaning(program, next, depth, r.tests, outcome, r.follows)) else r)
    case Call(route, next) =>
      var to := Lookup(program.routines, route);
      if depth == MAX_STACK_DEPTH || to == [] then Result([], tests, follows, Killed)
      else
        var r := Falling(program, to, depth + 1, tests, outcome, follows);
        if r.exit.Returned? then Append(r, Meaning(program, next, depth, r.tests, outcome, r.follows)) else r
    case Follow(route, _) =>
      var to := Lookup(program.routines, route);
      if follows == 0 then Result([], tests, 0, Paused)
      else if to == [] then Result([], tests, follows - 1, Killed)
      else Falling(program, to, depth, tests, outcome, follows - 1)
    case Return(_) => Result([], tests, follows, if depth == 0 then Killed else Returned)
    case Done(_) => Result([], tests, follows, Killed)
  }

  /** A routine that falls off its end goes on with the next one, and the last one ends the task. */
  function Falling(program: Program, routines: seq<Routine>, depth: nat, tests: nat, outcome: nat -> bool, follows: nat)
    : (r: Result)
    requires depth <= MAX_STACK_DEPTH
    ensures r.follows <= follows && !r.exit.Fell?
    decreases follows, MAX_STACK_DEPTH - depth, 1, |routines|
  {
    if routines == [] then Result([], tests, follows, Killed)
    else
      var r := Meaning(program, routines[0].body, depth, tests, outcome, follows);
      if r.exit.Fell? then Append(r, Falling(program, routines[1..], depth, r.tests, outcome, r.follows)) else r
  }
}

/** DCCEXParser::splitValues, and the keyword hash of KeywordHasher.h that it has to agree with. */
module CommandSplitter {
  import opened Bytes

  const MAX_COMMAND_PARAMS: nat := 10

  const NUL: byte := 0
  const SPACE: byte := 32
  const QUOTE: byte := 34
  const MINUS: byte := 45
  const GREATER: byte := 62
  const STRING_MARKER: int := 0x7777

  predicate IsDigit(c: byte) {
    48 <= c <= 57
  }

  /** Lower case letters count as upper case ones. */
  function Upper(c: byte): byte {
    if 97 <= c <= 122 then c - 32 else c
  }

  predicate IsLetter(c: byte) {
    c == 95 || 65 <= c <= 90
  }

  // ---------- Running values ----------

  /** `(r << 5) + r) ^ c` on a 32-bit int, cut to int16_t. */
  function HashIn(r: int, c: byte): int {
    ToInt16(Xor((33 * r) % 0x1_0000_0000, c))
  }

  /** One more character of a parameter, if it can be one. */
  predicate Continues(c: byte) {
    IsDigit(c) || IsLetter(Upper(c))
  }

  function Take(r: int, c: byte, hex: bool): int
    requires Continues(c)
  {
    if IsDigit(c) then ToInt16((if hex then 16 else 10) * r + (c - 48))
    else if hex && 65 <= Upper(c) <= 70 then ToInt16(16 * r + (Upper(c) - 55))
    else HashIn(r, Upper(c))
  }

  // ---------- The scan ----------

  /** The values so far, and the positions of the characters that have been overwritten with NUL. */
  datatype Done = Done(values: seq<int>, cuts: seq<int>)

  function Put(done: Done, more: seq<int>): Done {
    done.(values := done.values + more)
  }

  function Cut(done: Done, at: int): Done {
    done.(cuts := done.cuts + [at])
  }

  /** The result of splitValues.  TooMany: a quoted string comes when nine values are taken, and the second
      of its two values is written behind the result array.  Overrun: the text is read past its end. */
  datatype Outcome = Values(done: Done) | Failed(done: Done) | TooMany | Overrun

  /** The states of splitValues: before a parameter, at its sign, in it, and in a quoted string. */
  datatype State = Skipping | Sign | Building(running: int, negative: bool) | Quoted

  function Rank(s: State): nat {
    match s
    case Skipping => 2
    case Sign => 1
    case Building(_, _) => 0
    case Quoted => 0
  }

  function Negated(v: int, negative: bool): int {
    ToInt16(if negative then -v else v)
  }

  /** splitValues from some state, some values and the rest of a command of `len` characters on.  The measure
      is the free parameters, the text left and the state. */
  function Scan(text: seq<byte>, s: State, done: Done, hex: bool, len: nat): Outcome
    requires |done.values| <= MAX_COMMAND_PARAMS
    decreases MAX_COMMAND_PARAMS - |done.values|, |text|, Rank(s)
  {
    if |done.values| == MAX_COMMAND_PARAMS then Values(done)
    else if text == [] then Overrun
    else
      var hot, at := text[0], len - |text|;
      match s
      case Skipping =>
        if hot == SPACE then Scan(text[1..], Skipping, done, hex, len)
        else if hot == NUL then Failed(done)
        else if hot == GREATER then Values(Cut(done, at))
        else Scan(text, Sign, done, hex, len)
      case Sign =>
        if hot == QUOTE then
          (if |done.values| + 2 > MAX_COMMAND_PARAMS then TooMany
           else Scan(text[1..], Quoted, Put(done, [STRING_MARKER, ToInt16(at + 1)]), hex, len))
        else if hot == MINUS then Scan(text[1..], Building(0, true), done, hex, len)
        else Scan(text, Building(0, false), done, hex, len)
      case Building(running, negative) =>
        if Continues(hot) then Scan(text[1..], Building(Take(running, hot, hex), negative), done, hex, len)
        else Scan(text, Skipping, Put(done, [Negated(running, negative)]), hex, len)
      case Quoted =>
        if hot == NUL then Failed(done)
        else if hot == QUOTE then Scan(text[1..], Skipping, Cut(done, at), hex, len)
        else Scan(text[1..], Quoted, done, hex, len)
  }

  /** With a NUL at its end, a text is never read past the NUL.  Only a quote can lead to too many values. */
  lemma {:induction false} StaysInText(text: seq<byte>, s: State, done: Done, hex: bool, len: nat)
    requires |done.values| <= MAX_COMMAND_PARAMS && NUL in text && (s.Sign? ==> text[0] != NUL)
    ensures var r := Scan(text, s, done, hex, len);
      !r.Overrun? && (!r.TooMany? ==> |r.done.values| <= MAX_COMMAND_PARAMS) && (r.TooMany? ==> QUOTE in text)
    decreases MAX_COMMAND_PARAMS - |done.values|, |text|, Rank(s)
  {
    if |done.values| < MAX_COMMAND_PARAMS {
      var hot, at := text[0], len - |text|;
      match s
      case Skipping =>
        if hot == SPACE {
          StaysInText(text[1..], Skipping, done, hex, len);
        } else if hot != NUL && hot != GREATER {
          StaysInText(text, Sign, done, hex, len);
        }
      case Sign =>
        if hot == QUOTE {
          if |done.values| + 2 <= MAX_COMMAND_PARAMS {
            StaysInText(text[1..], Quoted, Put(done, [STRING_MARKER, ToInt16(at + 1)]), hex, len);
          }
        } else if hot == MINUS {
          StaysInText(text[1..], Building(0, true), done, hex, len);
        } else {
          StaysInText(text, Building(0, false), done, hex, len);
        }
      case Building(running, negative) =>
        if Continues(hot) {
          StaysInText(text[1..], Building(Take(running, hot, hex), negative), done, hex, len);
        } else {
          StaysInText(text, Skipping, Put(done, [Negated(running, negative)]), hex, len);
        }
      case Quoted =>
        if hot == QUOTE {
          StaysInText(text[1..], Skipping, Cut(done, at), hex, len);
        } else if hot != NUL {
          StaysInText(text[1..], Quoted, done, hex, len);
        }
    }
  }

  // ---------- The loop ----------

  /** The local variables of splitValues. */
  datatype Locals = Locals(parameterCount: nat, remaining: nat, state: nat, runningValue: int, signNegative: bool) {
    /** The state that they stand for. */
    function Now(): State {
      if state == 1 then Skipping
      else if state == 2 then Sign
      else if state == 3 then Building(runningValue, signNegative)
      else Quoted
    }
  }

  /** The result cells hold these values, and zeros behind them. */
  ghost predicate Holds(result: array<int>, values: seq<int>)
    reads result
  {
    && |values| <= result.Length && result[..|values|] == values
    && forall i | |values| <= i < result.Length :: result[i] == 0
  }

  /** The command, with NULs at these positions. */
  ghost predicate IsCut(cmd: array<byte>, was: seq<byte>, cuts: seq<int>)
    reads cmd
  {
    && |was| == cmd.Length
    && forall i | 0 <= i < cmd.Length :: cmd[i] == if i in cuts then NUL else was[i]
  }

  /** In the loop: what is left to scan leads to `r`. */
  ghost predicate Going(result: array<int>, cmd: array<byte>, was: seq<byte>, cuts: seq<int>, v: Locals, hex: bool,
      r: Outcome)
    reads result, cmd
  {
    && v.parameterCount <= MAX_COMMAND_PARAMS == result.Length && 0 < v.remaining < cmd.Length && 1 <= v.state <= 4
    && Holds(result, result[..v.parameterCount])
    && IsCut(cmd, was, cuts) && (forall c | c in cuts :: c < v.remaining)
    && NUL in was[v.remaining..] && (v.state == 2 ==> was[v.remaining] != NUL)
    && r == Scan(was[v.remaining..], v.Now(), Done(result[..v.parameterCount], cuts), hex, cmd.Length)
  }

  /** What splitValues leaves behind for this outcome of the scan. */
  ghost predicate Ended(result: array<int>, cmd: array<byte>, was: seq<byte>, r: Outcome, parameterCount: int,
      overflow: bool)
    reads result, cmd
  {
    match r
    case Values(done) =>
      !overflow && parameterCount == |done.values| && Holds(result, done.values) && IsCut(cmd, was, done.cuts)
    case Failed(done) =>
      !overflow && parameterCount == -1 && Holds(result, done.values) && IsCut(cmd, was, done.cuts)
    case TooMany => overflow
    case Overrun => false
  }

  /** splitValues: its count and cells are those of the scan, the cells behind them are 0, and of the command
      exactly the closing quotes and the closing '>' that the scan got to are overwritten.  `overflow` says
      that a value would be written behind the result array. */
  method SplitValues(result: array<int>, cmd: array<byte>, useHex: bool) returns (parameterCount: int, overflow: bool)
    requires result.Length == MAX_COMMAND_PARAMS
    requires cmd.Length > 0 && NUL in cmd[1..]
    modifies result, cmd
    ensures Ended(result, cmd, old(cmd[..]), Scan(old(cmd[1..]), Skipping, Done([], []), useHex, cmd.Length),
                  parameterCount, overflow)
  {
    hide Scan, IsCut, Holds, Ended;
    ClearCells(result);
    ghost var was, cuts := cmd[..], [];
    ghost var r := Scan(was[1..], Skipping, Done([], []), useHex, cmd.Length);
    assert cmd[1..] == was[1..];
    NothingYet(cmd);
    var v := Locals(0, 1, 1, 0, false);
    while v.parameterCount < MAX_COMMAND_PARAMS
      invariant Going(result, cmd, was, cuts, v, useHex, r)
      decreases MAX_COMMAND_PARAMS - v.parameterCount, cmd.Length - v.remaining, 4 - v.state
    {
      hide Going;
      var end;
      if v.state == 1 {
        end, parameterCount, v := Skip(result, cmd, was, cuts, v, useHex, r);
      } else if v.state == 2 {
        end, parameterCount, overflow, v := Begin(result, cmd, was, cuts, v, useHex, r);
        if end { return; }
      } else if v.state == 3 {
        v := Build(result, cmd, was, cuts, v, useHex, r);
        end := false;
      } else {
        end, v, cuts := PassText(result, cmd, was, cuts, v, useHex, r);
        parameterCount := -1;
      }
      if end { return parameterCount, false; }
    }
    AllTaken(result, cmd, was, cuts, v, useHex, r);
    return v.parameterCount, false;
  }

  lemma AllTaken(result: array<int>, cmd: array<byte>, was: seq<byte>, cuts: seq<int>, v: Locals, hex: bool, r: Outcome)
    requires Going(result, cmd, was, cuts, v, hex, r) && v.parameterCount == MAX_COMMAND_PARAMS
    ensures Ended(result, cmd, was, r, v.parameterCount, false)
  {
    hide Holds, IsCut;
  }

  /** State 1: skipping spaces before a parameter. */
  method Skip(result: array<int>, cmd: array<byte>, ghost was: seq<byte>, ghost cuts: seq<int>, v: Locals, hex: bool,
              ghost r: Outcome) returns (end: bool, parameterCount: int, u: Locals)
    requires Going(result, cmd, was, cuts, v, hex, r) && v.state == 1 && v.parameterCount < MAX_COMMAND_PARAMS
    modifies cmd
    ensures if end then Ended(result, cmd, was, r, parameterCount, false) else Going(result, cmd, was, cuts, u, hex, r)
    ensures !end ==> u in {v.(state := 2), v.(remaining := v.remaining + 1)}
  {
    hide Scan, IsCut, Holds;
    var hot := cmd[v.remaining];
    NotCutYet(cmd, was, cuts, v.remaining);
    ScanOnce(was[v.remaining..], v.Now(), Done(result[..v.parameterCount], cuts), hex, cmd.Length);
    if hot == NUL { return true, -1, v; }
    if hot == GREATER {
      CutAt(cmd, was, cuts, v.remaining);
      return true, v.parameterCount, v;
    }
    return false, 0, if hot == SPACE then v.(remaining := v.remaining + 1) else v.(state := 2);
  }

  /** State 2: checking sign or quoted string. */
  method Begin(result: array<int>, cmd: array<byte>, ghost was: seq<byte>, ghost cuts: seq<int>, v: Locals, hex: bool,
               ghost r: Outcome) returns (end: bool, parameterCount: int, overflow: bool, u: Locals)
    requires Going(result, cmd, was, cuts, v, hex, r) && v.state == 2 && v.parameterCount < MAX_COMMAND_PARAMS
    modifies result
    ensures if end then Ended(result, cmd, was, r, parameterCount, overflow)
            else Going(result, cmd, was, cuts, u, hex, r)
    ensures !end ==> u.parameterCount >= v.parameterCount && u.remaining >= v.remaining && u.state > v.state
  {
    hide Scan, IsCut, Holds, ToInt16;
    var hot := cmd[v.remaining];
    NotCutYet(cmd, was, cuts, v.remaining);
    ScanOnce(was[v.remaining..], v.Now(), Done(result[..v.parameterCount], cuts), hex, cmd.Length);
    if hot == QUOTE {
      if v.parameterCount + 1 == MAX_COMMAND_PARAMS { return true, 0, true, v; }
      PutCells(result, v.parameterCount, [STRING_MARKER, ToInt16(v.remaining + 1)]);
      return false, 0, false, v.(parameterCount := v.parameterCount + 2, state := 4, remaining := v.remaining + 1);
    }
    u := v.(signNegative := hot == MINUS, runningValue := 0, state := 3);
    return false, 0, false, if hot == MINUS then u.(remaining := u.remaining + 1) else u;
  }

  /** State 3: building a parameter. */
  method Build(result: array<int>, cmd: array<byte>, ghost was: seq<byte>, ghost cuts: seq<int>, v: Locals, hex: bool,
               ghost r: Outcome) returns (u: Locals)
    requires Going(result, cmd, was, cuts, v, hex, r) && v.state == 3 && v.parameterCount < MAX_COMMAND_PARAMS
    modifies result
    ensures Going(result, cmd, was, cuts, u, hex, r)
    ensures u.parameterCount > v.parameterCount || (u.parameterCount == v.parameterCount && u.remaining > v.remaining)
  {
    hide Scan, IsCut, Holds, Take, Negated, Continues;
    var hot := cmd[v.remaining];
    NotCutYet(cmd, was, cuts, v.remaining);
    NulEnds();
    ScanOnce(was[v.remaining..], v.Now(), Done(result[..v.parameterCount], cuts), hex, cmd.Length);
    if Continues(hot) {
      return v.(runningValue := Take(v.runningValue, hot, hex), remaining := v.remaining + 1);
    }
    PutCells(result, v.parameterCount, [Negated(v.runningValue, v.signNegative)]);
    return v.(parameterCount := v.parameterCount + 1, state := 1);
  }

  /** State 4: skipping over a quoted string; the quote that ends it is overwritten. */
  method PassText(result: array<int>, cmd: array<byte>, ghost was: seq<byte>, ghost cuts: seq<int>, v: Locals,
                  hex: bool, ghost r: Outcome) returns (end: bool, u: Locals, ghost more: seq<int>)
    requires Going(result, cmd, was, cuts, v, hex, r) && v.state == 4 && v.parameterCount < MAX_COMMAND_PARAMS
    modifies cmd
    ensures if end then Ended(result, cmd, was, r, -1, false) else Going(result, cmd, was, more, u, hex, r)
    ensures !end ==> u.parameterCount == v.parameterCount && u.remaining == v.remaining + 1
  {
    hide Scan, IsCut, Holds;
    var hot := cmd[v.remaining];
    NotCutYet(cmd, was, cuts, v.remaining);
    ScanOnce(was[v.remaining..], v.Now(), Done(result[..v.parameterCount], cuts), hex, cmd.Length);
    if hot == NUL { return true, v, cuts; }
    if hot == QUOTE {
      CutAt(cmd, was, cuts, v.remaining);
      return false, v.(state := 1, remaining := v.remaining + 1), cuts + [v.remaining];
    }
    return false, v.(remaining := v.remaining + 1), cuts;
  }

  method ClearCells(result: array<int>)
    modifies result
    ensures Holds(result, []) && result[..0] == []
  {
    for i := 0 to result.Length
      invariant forall k | 0 <= k < i :: result[k] == 0
    {
      result[i] := 0;
    }
  }

  lemma NulEnds()
    ensures !Continues(NUL)
  {
  }

  lemma NothingYet(cmd: array<byte>)
    ensures IsCut(cmd, cmd[..], [])
  {
  }

  lemma NotCutYet(cmd: array<byte>, was: seq<byte>, cuts: seq<int>, at: nat)
    requires IsCut(cmd, was, cuts) && at < cmd.Length && forall c | c in cuts :: c < at
    ensures cmd[at] == was[at] && was[at..][0] == was[at] && was[at..][1..] == was[at + 1..]
    ensures |was| == cmd.Length && (NUL in was[at..] && was[at] != NUL ==> NUL in was[at + 1..])
  {
  }

  /** `*remainingCmd = '\0'` */
  method CutAt(cmd: array<byte>, ghost was: seq<byte>, ghost cuts: seq<int>, at: nat)
    requires IsCut(cmd, was, cuts) && at < cmd.Length
    modifies cmd
    ensures IsCut(cmd, was, cuts + [at])
  {
    cmd[at] := NUL;
  }

  /** One turn of the loop, as a step of the scan. */
  lemma ScanOnce(text: seq<byte>, s: State, done: Done, hex: bool, len: nat)
    requires |done.values| <= MAX_COMMAND_PARAMS && text != []
    ensures Scan(text, s, done, hex, len) ==
      var hot, rest, at := text[0], text[1..], len - |text|;
      if |done.values| == MAX_COMMAND_PARAMS then Values(done)
      else
        match s
        case Skipping =>
          if hot == SPACE then Scan(rest, Skipping, done, hex, len)
          else if hot == NUL then Failed(done)
          else if hot == GREATER then Values(Cut(done, at))
          else Scan(text, Sign, done, hex, len)
        case Sign =>
          if hot == QUOTE then
            (if |done.values| + 2 > MAX_COMMAND_PARAMS then TooMany
             else Scan(rest, Quoted, Put(done, [STRING_MARKER, ToInt16(at + 1)]), hex, len))
          else if hot == MINUS then Scan(rest, Building(0, true), done, hex, len)
          else Scan(text, Building(0, false), done, hex, len)
        case Building(running, negative) =>
          if Continues(hot) then Scan(rest, Building(Take(running, hot, hex), negative), done, hex, len)
          else Scan(text, Skipping, Put(done, [Negated(running, negative)]), hex, len)
        case Quoted =>
          if hot == NUL then Failed(done)
          else if hot == QUOTE then Scan(rest, Skipping, Cut(done, at), hex, len)
          else Scan(rest, Quoted, done, hex, len)
  {
  }

  /** The next result cells. */
  method PutCells(result: array<int>, count: nat, values: seq<int>)
    requires count + |values| <= result.Length && Holds(result, result[..count])
    modifies result
    ensures result[..count + |values|] == old(result[..count]) + values && Holds(result, result[..count + |values|])
  {
    for i := 0 to |values|
      invariant result[..count] == old(result[..count]) && result[count..count + i] == values[..i]
      invariant forall k | count + i <= k < result.Length :: result[k] == 0
    {
      result[count + i] := values[i];
    }
  }

  // ---------- Quoted strings ----------

  lemma {:induction false} ScanText(chars: seq<byte>, rest: seq<byte>, done: Done, hex: bool, len: nat)
    requires |done.values| < MAX_COMMAND_PARAMS && NUL !in chars && QUOTE !in chars
    ensures Scan(chars + [QUOTE] + rest, Quoted, done, hex, len)
         == Scan(rest, Skipping, Cut(done, len - |rest| - 1), hex, len)
    decreases |chars|
  {
    var text := chars + [QUOTE] + rest;
    if chars == [] {
      assert text[0] == QUOTE && text[1..] == rest;
    } else {
      assert text[0] == chars[0] && text[1..] == chars[1..] + [QUOTE] + rest;
      ScanText(chars[1..], rest, done, hex, len);
    }
  }

  /** A quoted string is two values, the marker and the position of its first character, and its closing quote
      is cut off, as long as that is not the end of the parameters. */
  lemma StringComesBack(chars: seq<byte>, rest: seq<byte>, done: Done, hex: bool, len: nat)
    requires |done.values| + 2 < MAX_COMMAND_PARAMS && NUL !in chars && QUOTE !in chars
    ensures var first := len - |rest| - |chars| - 1;
      Scan([SPACE, QUOTE] + (chars + [QUOTE] + rest), Skipping, done, hex, len)
      == Scan(rest, Skipping, Cut(Put(done, [STRING_MARKER, ToInt16(first)]), first + |chars|), hex, len)
  {
    hide Put, Cut;
    var text := chars + [QUOTE] + rest;
    var all := [SPACE, QUOTE] + text;
    assert all[1..] == [QUOTE] + text && ([QUOTE] + text)[1..] == text;
    var next := Put(done, [STRING_MARKER, ToInt16(len - |text|)]);
    assert |next.values| == |done.values| + 2 by { PutCounts(done, [STRING_MARKER, ToInt16(len - |text|)]); }
    ScanQuote(text, done, hex, len);
    ScanText(chars, rest, next, hex, len);
  }

  lemma PutCounts(done: Done, more: seq<int>)
    ensures |Put(done, more).values| == |done.values| + |more|
  {
  }

  /** From a space to the first character of a string. */
  lemma ScanQuote(text: seq<byte>, done: Done, hex: bool, len: nat)
    requires |done.values| + 2 <= MAX_COMMAND_PARAMS
    ensures Scan([SPACE, QUOTE] + text, Skipping, done, hex, len)
         == Scan(text, Quoted, Put(done, [STRING_MARKER, ToInt16(len - |text|)]), hex, len)
  {
    var all, at := [SPACE, QUOTE] + text, [QUOTE] + text;
    assert all[1..] == at && at[1..] == text;
    assert Scan(all, Skipping, done, hex, len) == Scan(at, Skipping, done, hex, len);
    assert Scan(at, Skipping, done, hex, len) == Scan(at, Sign, done, hex, len);
  }

  /** With nine values taken, a quoted string has one value too many. */
  lemma TenthStringOverflows(text: seq<byte>, done: Done, hex: bool, len: nat)
    requires |done.values| == MAX_COMMAND_PARAMS - 1
    ensures Scan([QUOTE] + text, Skipping, done, hex, len) == TooMany
  {
    assert Scan([QUOTE] + text, Skipping, done, hex, len) == Scan([QUOTE] + text, Sign, done, hex, len);
  }

  // ---------- A parameter ----------

  function TakeAll(r: int, chars: seq<byte>, hex: bool): int
    requires forall i | 0 <= i < |chars| :: Continues(chars[i])
    decreases |chars|
  {
    if chars == [] then r else TakeAll(Take(r, chars[0], hex), chars[1..], hex)
  }

  /** A run of characters becomes one value, ready for what comes behind it. */
  lemma {:induction false} ScanRun(chars: seq<byte>, rest: seq<byte>, r: int, negative: bool, done: Done, hex: bool,
      len: nat)
    requires |done.values| < MAX_COMMAND_PARAMS && forall i | 0 <= i < |chars| :: Continues(chars[i])
    requires rest != [] && !Continues(rest[0])
    ensures Scan(chars + rest, Building(r, negative), done, hex, len)
         == Scan(rest, Skipping, Put(done, [Negated(TakeAll(r, chars, hex), negative)]), hex, len)
    decreases |chars|
  {
    var text := chars + rest;
    if chars == [] {
      assert text == rest;
    } else {
      assert text[0] == chars[0] && text[1..] == chars[1..] + rest;
      ScanRun(chars[1..], rest, Take(r, chars[0], hex), negative, done, hex, len);
    }
  }

  /** From a space on to the first character of a parameter, and over its sign. */
  lemma ScanStart(text: seq<byte>, done: Done, hex: bool, len: nat)
    requires |done.values| < MAX_COMMAND_PARAMS && text != [] && text[0] !in {SPACE, NUL, GREATER, QUOTE}
    ensures Scan([SPACE] + text, Skipping, done, hex, len) ==
      if text[0] == MINUS then Scan(text[1..], Building(0, true), done, hex, len)
      else Scan(text, Building(0, false), done, hex, len)
  {
    assert ([SPACE] + text)[1..] == text;
    assert Scan([SPACE] + text, Skipping, done, hex, len) == Scan(text, Skipping, done, hex, len);
    assert Scan(text, Skipping, done, hex, len) == Scan(text, Sign, done, hex, len);
  }

  // ---------- Numbers ----------

  /** A number in decimal. */
  function Digits(n: nat): (d: seq<byte>)
    ensures d != [] && forall i | 0 <= i < |d| :: IsDigit(d[i])
  {
    if n < 10 then [48 + n] else Digits(n / 10) + [48 + n % 10]
  }

  function Decimal(v: int): seq<byte> {
    if v < 0 then [MINUS] + Digits(-v) else Digits(v)
  }

  /** Conversions of multiples of 2^16 vanish. */
  lemma SameInt16(a: int, b: int, k: int)
    requires a == b + 0x1_0000 * k
    ensures ToInt16(a) == ToInt16(b)
  {
  }

  lemma Int16Is(a: int) returns (k: int)
    ensures a == ToInt16(a) + 0x1_0000 * k
  {
    k := (a + 0x8000) / 0x1_0000;
  }

  /** A digit of a number that has already been cut to 16 bits. */
  lemma TakeDigit(n: nat, d: nat)
    requires d < 10
    ensures Take(ToInt16(n), 48 + d, false) == ToInt16(10 * n + d)
  {
    var k := Int16Is(n);
    SameInt16(10 * n + d, 10 * ToInt16(n) + d, 10 * k);
  }

  lemma {:induction false} TakeSum(r: int, a: seq<byte>, b: seq<byte>, hex: bool)
    requires forall i | 0 <= i < |a| :: Continues(a[i])
    requires forall i | 0 <= i < |b| :: Continues(b[i])
    ensures forall i | 0 <= i < |a + b| :: Continues((a + b)[i])
    ensures TakeAll(r, a + b, hex) == TakeAll(TakeAll(r, a, hex), b, hex)
    decreases |a|
  {
    if a == [] {
      assert a + b == b;
    } else {
      assert (a + b)[1..] == a[1..] + b;
      TakeSum(Take(r, a[0], hex), a[1..], b, hex);
    }
  }

  lemma {:induction false} DigitsRead(n: nat)
    ensures TakeAll(0, Digits(n), false) == ToInt16(n)
    decreases n
  {
    if n < 10 {
      TakeDigit(0, n);
      assert Digits(n)[1..] == [];
    } else {
      DigitsRead(n / 10);
      var last := [48 + n % 10];
      TakeSum(0, Digits(n / 10), last, false);
      assert last[1..] == [];
      TakeDigit(n / 10, n % 10);
      assert 10 * (n / 10) + n % 10 == n;
    }
  }

  /** Each value with a space before it. */
  function Printed(values: seq<int>): seq<byte> {
    if values == [] then [] else [SPACE] + Decimal(values[0]) + Printed(values[1..])
  }

  lemma PrintedFirst(values: seq<int>, tail: seq<byte>)
    requires values != []
    ensures Printed(values) + tail == [SPACE] + (Decimal(values[0]) + (Printed(values[1..]) + tail))
  {
    hide Decimal;
    Regrouped([SPACE], Decimal(values[0]), Printed(values[1..]), tail);
  }

  lemma Regrouped(a: seq<byte>, b: seq<byte>, c: seq<byte>, d: seq<byte>)
    ensures a + b + c + d == a + (b + (c + d))
  {
  }

  /** What follows a parameter ends it. */
  lemma EndsParameter(values: seq<int>, tail: seq<byte>)
    requires tail != [] && !Continues(tail[0])
    ensures var more := Printed(values) + tail; more != [] && !Continues(more[0])
  {
  }

  /** The sign, and the digits behind it. */
  lemma SignIsRead(v: int, more: seq<byte>, done: Done, len: nat)
    requires |done.values| < MAX_COMMAND_PARAMS
    ensures Scan([SPACE] + (Decimal(v) + more), Skipping, done, false, len)
         == Scan(Digits(if v < 0 then -v else v) + more, Building(0, v < 0), done, false, len)
  {
    hide Scan, Digits;
    var text := Decimal(v) + more;
    assert v >= 0 ==> text[0] == Digits(v)[0];
    assert v < 0 ==> text[0] == MINUS && text[1..] == Digits(-v) + more;
    ScanStart(text, done, false, len);
  }

  /** A printed value is scanned as that value. */
  lemma ScanValue(v: int, more: seq<byte>, done: Done, len: nat)
    requires -0x8000 <= v < 0x8000 && |done.values| < MAX_COMMAND_PARAMS && more != [] && !Continues(more[0])
    ensures Scan([SPACE] + (Decimal(v) + more), Skipping, done, false, len)
      == Scan(more, Skipping, Put(done, [v]), false, len)
  {
    hide Scan, Digits, Decimal, TakeAll, Negated;
    var n := if v < 0 then -v else v;
    SignIsRead(v, more, done, len);
    DigitsRead(n);
    ScanRun(Digits(n), more, 0, v < 0, done, false, len);
    NegatedIs(v);
  }

  lemma NegatedIs(v: int)
    requires -0x8000 <= v < 0x8000
    ensures Negated(ToInt16(if v < 0 then -v else v), v < 0) == v
  {
  }

  lemma PutTwice(done: Done, v: int, values: seq<int>)
    ensures Put(Put(done, [v]), values) == Put(done, [v] + values)
    ensures Put(done, []) == done
  {
    assert done.values + [v] + values == done.values + ([v] + values) && done.values + [] == done.values;
  }

  /** Printed values are scanned as those values, whatever follows. */
  lemma {:induction false} ScanPrinted(values: seq<int>, done: Done, tail: seq<byte>, len: nat)
    requires |done.values| + |values| <= MAX_COMMAND_PARAMS && tail != [] && !Continues(tail[0])
    requires forall i | 0 <= i < |values| :: -0x8000 <= values[i] < 0x8000
    ensures |Put(done, values).values| <= MAX_COMMAND_PARAMS
    ensures Scan(Printed(values) + tail, Skipping, done, false, len)
      == Scan(tail, Skipping, Put(done, values), false, len)
    decreases |values|
  {
    hide Scan, Decimal, Continues, Put;
    PutCounts(done, values);
    if values == [] {
      assert Printed(values) + tail == tail;
      PutTwice(done, 0, values);
    } else {
      PutCounts(done, [values[0]]);
      PrintedFirst(values, tail);
      EndsParameter(values[1..], tail);
      ScanValue(values[0], Printed(values[1..]) + tail, done, len);
      ScanPrinted(values[1..], Put(done, [values[0]]), tail, len);
      PutTwice(done, values[0], values[1..]);
      assert [values[0]] + values[1..] == values;
    }
  }

  /** What the closing '>' makes of the values: it is overwritten, unless there are as many as there may be. */
  function Closed(done: Done, at: int): Done {
    if |done.values| == MAX_COMMAND_PARAMS then done else Cut(done, at)
  }

  /** The closing '>' ends the scan. */
  lemma ScanEnds(done: Done, rest: seq<byte>, len: nat)
    requires |done.values| <= MAX_COMMAND_PARAMS
    ensures Scan([GREATER] + rest, Skipping, done, false, len) == Values(Closed(done, len - |rest| - 1))
  {
  }

  /** Main result: up to ten int16_t values in decimal, closed by '>', come back exactly, whatever follows. */
  lemma ValuesComeBack(values: seq<int>, rest: seq<byte>, len: nat)
    requires |values| <= MAX_COMMAND_PARAMS && forall i | 0 <= i < |values| :: -0x8000 <= values[i] < 0x8000
    ensures Scan(Printed(values) + ([GREATER] + rest), Skipping, Done([], []), false, len)
         == Values(Closed(Done(values, []), len - |rest| - 1))
  {
    hide Scan, Printed, Closed;
    ScanPrinted(values, Done([], []), [GREATER] + rest, len);
    assert [] + values == values;
    ScanEnds(Done(values, []), rest, len);
  }

  // ---------- Keywords ----------

  /** CompiletimeKeywordHasher */
  function KeywordHash(word: seq<byte>, running: nat): (h: nat)
    requires running < 0x1_0000
    ensures h < 0x1_0000
    decreases |word|
  {
    if word == [] then running
    else KeywordHash(word[1..],
      (if IsDigit(word[0]) then 10 * running + (word[0] - 48) else Xor(33 * running, word[0])) % 0x1_0000)
  }

  function UpperCase(word: seq<byte>): seq<byte> {
    seq(|word|, i requires 0 <= i < |word| => Upper(word[i]))
  }

  lemma Pow16()
    ensures Pow2(16) == 0x1_0000
  {
    assert Pow2(4) == 16;
    assert Pow2(8) == 256;
    assert Pow2(12) == 4096;
  }

  /** Hashing a character on 32-bit ints and on uint16_t gives the same 16 bits. */
  lemma HashesAgree(u: nat, c: byte)
    requires u < 0x1_0000
    ensures HashIn(ToInt16(u), c) == ToInt16(Xor(33 * u, c) % 0x1_0000)
  {
    hide Xor, Pow2;
    var a := (33 * ToInt16(u)) % 0x1_0000_0000;
    Pow16();
    SameLow(u);
    XorLow(a, c, 16);
    XorLow(33 * u, c, 16);
    Int16OfLow(Xor(a, c));
  }

  lemma SameLow(u: nat)
    requires u < 0x1_0000
    ensures (33 * ToInt16(u)) % 0x1_0000_0000 % 0x1_0000 == 33 * u % 0x1_0000
  {
    var k := Int16Is(u);
    var x := 33 * ToInt16(u);
    assert x == 33 * u - 0x1_0000 * (33 * k);
    var q := x / 0x1_0000_0000;
    assert x % 0x1_0000_0000 == 33 * u - 0x1_0000 * (33 * k + 0x1_0000 * q);
    LowOfMultiple(x % 0x1_0000_0000, 33 * u, -(33 * k + 0x1_0000 * q));
  }

  lemma LowOfMultiple(a: int, b: int, k: int)
    requires a == b + 0x1_0000 * k
    ensures a % 0x1_0000 == b % 0x1_0000
  {
  }

  lemma Int16OfLow(x: nat)
    ensures ToInt16(x) == ToInt16(x % 0x1_0000)
  {
    SameInt16(x, x % 0x1_0000, x / 0x1_0000);
  }

  lemma {:induction false} KeywordHashes(word: seq<byte>, u: nat)
    requires u < 0x1_0000 && forall i | 0 <= i < |word| :: Continues(word[i])
    ensures TakeAll(ToInt16(u), word, false) == ToInt16(KeywordHash(UpperCase(word), u))
    decreases |word|
  {
    if word != [] {
      var c := word[0];
      assert UpperCase(word)[0] == Upper(c) && UpperCase(word)[1..] == UpperCase(word[1..]);
      var next := (if IsDigit(Upper(c)) then 10 * u + (Upper(c) - 48) else Xor(33 * u, Upper(c))) % 0x1_0000;
      if IsDigit(c) {
        TakeDigit(u, c - 48);
        Int16OfLow(10 * u + (c - 48));
      } else {
        HashesAgree(u, Upper(c));
      }
      hide Take, Xor;
      KeywordHashes(word[1..], next);
    }
  }

  /** Main result: a keyword of letters, digits and underscores in either case is the parameter that the
      compile-time hash of its upper case form says. */
  lemma KeywordComesBack(word: seq<byte>, more: seq<byte>, done: Done, len: nat)
    requires word != [] && forall i | 0 <= i < |word| :: Continues(word[i])
    requires |done.values| < MAX_COMMAND_PARAMS && more != [] && !Continues(more[0])
    ensures Scan([SPACE] + word + more, Skipping, done, false, len)
         == Scan(more, Skipping, Put(done, [ToInt16(KeywordHash(UpperCase(word), 0))]), false, len)
  {
    hide Scan, TakeAll, KeywordHash, Take, UpperCase, Xor, Negated, ToInt16;
    var text := word + more;
    assert [SPACE] + word + more == [SPACE] + text && text[0] == word[0];
    assert text[0] !in {SPACE, NUL, GREATER, QUOTE, MINUS};
    ScanStart(text, done, false, len);
    ScanRun(word, more, 0, false, done, false, len);
    ZeroFits();
    KeywordHashes(word, 0);
    HashIsKept(KeywordHash(UpperCase(word), 0));
  }

  /** A keyword as it stands in the source, behind which `_hk` is its hash. */
  predicate IsKeyword(keyword: string) {
    forall i | 0 <= i < |keyword| ::
      'A' <= keyword[i] <= 'Z' || '0' <= keyword[i] <= '9' || keyword[i] == '_'
  }

  function Codes(keyword: string): (codes: seq<byte>)
    requires IsKeyword(keyword)
    ensures |codes| == |keyword| && forall i | 0 <= i < |codes| :: codes[i] == keyword[i] as int
  {
    seq(|keyword|, i requires 0 <= i < |keyword| => keyword[i] as int)
  }

  /** The keyword in a command, each of its letters in upper or lower case. */
  predicate Spells(word: seq<byte>, keyword: string) {
    && |word| == |keyword|
    && forall i | 0 <= i < |word| ::
         || word[i] == keyword[i] as int
         || ('A' <= keyword[i] <= 'Z' && word[i] - 'a' as int == keyword[i] as int - 'A' as int)
  }

  /** So a keyword is found in a command in whichever case it is written. */
  lemma KeywordIsFound(keyword: string, word: seq<byte>, more: seq<byte>, done: Done, len: nat)
    requires IsKeyword(keyword) && Spells(word, keyword) && word != []
    requires |done.values| < MAX_COMMAND_PARAMS && more != [] && more[0] in {SPACE, NUL, GREATER}
    ensures Scan([SPACE] + word + more, Skipping, done, false, len)
         == Scan(more, Skipping, Put(done, [ToInt16(KeywordHash(Codes(keyword), 0))]), false, len)
  {
    hide Scan, KeywordHash, ToInt16;
    KeywordComesBack(word, more, done, len);
    assert UpperCase(word) == Codes(keyword);
  }

  lemma ZeroFits()
    ensures ToInt16(0) == 0
  {
  }

  lemma HashIsKept(h: nat)
    requires h < 0x1_0000
    ensures Negated(ToInt16(h), false) == ToInt16(h)
  {
  }

  // ---------- Whole commands ----------

  datatype Param = Number(value: int) | Word(chars: seq<byte>) | Text(chars: seq<byte>)

  /** An int16_t; letters, digits and underscores; and whatever may be quoted. */
  predicate Printable(p: Param) {
    match p
    case Number(v) => -0x8000 <= v < 0x8000
    case Word(chars) => chars != [] && forall i | 0 <= i < |chars| :: Continues(chars[i])
    case Text(chars) => NUL !in chars && QUOTE !in chars
  }

  function Shown(p: Param): seq<byte> {
    match p
    case Number(v) => [SPACE] + Decimal(v)
    case Word(chars) => [SPACE] + chars
    case Text(chars) => [SPACE, QUOTE] + (chars + [QUOTE])
  }

  function All(ps: seq<Param>): seq<byte> {
    if ps == [] then [] else Shown(ps[0]) + All(ps[1..])
  }

  /** How many result cells parameters take. */
  function Cells(ps: seq<Param>): nat {
    if ps == [] then 0 else (if ps[0].Text? then 2 else 1) + Cells(ps[1..])
  }

  /** What one parameter adds, with `behind` characters behind it. */
  function After(p: Param, behind: nat, done: Done, len: nat): Done {
    match p
    case Number(v) => Put(done, [v])
    case Word(chars) => Put(done, [ToInt16(KeywordHash(UpperCase(chars), 0))])
    case Text(chars) =>
      var first := len - behind - 1 - |chars|;
      Closed(Put(done, [STRING_MARKER, ToInt16(first)]), first + |chars|)
  }

  /** What a command means: `done`, the values of these parameters, and `behind` characters behind the '>' or NUL
      that is the end of it.  A NUL is an error unless there are as many values as there may be. */
  function Read(ps: seq<Param>, done: Done, end: byte, behind: nat, len: nat): Outcome
    decreases |ps|
  {
    if |done.values| == MAX_COMMAND_PARAMS then Values(done)
    else if ps == [] then (if end == NUL then Failed(done) else Values(Cut(done, len - behind - 1)))
    else if ps[0].Text? && |done.values| == MAX_COMMAND_PARAMS - 1 then TooMany
    else Read(ps[1..], After(ps[0], |All(ps[1..])| + 1 + behind, done, len), end, behind, len)
  }

  /** Main result: any numbers, keywords and quoted strings, each behind a space and closed by '>' or not, are read as
      what they mean, whatever was read before and whatever follows. */
  lemma {:induction false} CommandComesBack(ps: seq<Param>, done: Done, end: byte, rest: seq<byte>, len: nat)
    requires |done.values| <= MAX_COMMAND_PARAMS && forall i | 0 <= i < |ps| :: Printable(ps[i])
    requires end == GREATER || end == NUL
    ensures Scan(All(ps) + ([end] + rest), Skipping, done, false, len) == Read(ps, done, end, |rest|, len)
    decreases |ps|
  {
    hide Scan, Decimal, UpperCase, KeywordHash, ToInt16, Put, Continues, After, Shown;
    if |done.values| == MAX_COMMAND_PARAMS {
      AllRead(All(ps) + ([end] + rest), done, len);
    } else if ps == [] {
      assert All(ps) + ([end] + rest) == [end] + rest;
      EndIsRead(done, end, rest, len);
    } else {
      var more := All(ps[1..]) + ([end] + rest);
      MoreEnds(ps[1..], end, rest);
      assert All(ps) + ([end] + rest) == Shown(ps[0]) + more;
      ParamComesBack(ps[0], more, done, len);
      assert Printable(ps[0]);
      var next := After(ps[0], |more|, done, len);
      if !(ps[0].Text? && |done.values| == MAX_COMMAND_PARAMS - 1) {
        CommandComesBack(ps[1..], next, end, rest, len);
      }
    }
  }

  lemma ParamComesBack(p: Param, more: seq<byte>, done: Done, len: nat)
    requires |done.values| < MAX_COMMAND_PARAMS && Printable(p) && more != [] && !Continues(more[0])
    ensures |After(p, |more|, done, len).values| == |done.values| + Cells([p])
    ensures p.Text? && |done.values| == MAX_COMMAND_PARAMS - 1 ==>
      Scan(Shown(p) + more, Skipping, done, false, len) == TooMany
    ensures !(p.Text? && |done.values| == MAX_COMMAND_PARAMS - 1) ==>
      |After(p, |more|, done, len).values| <= MAX_COMMAND_PARAMS
      && Scan(Shown(p) + more, Skipping, done, false, len)
         == Scan(more, Skipping, After(p, |more|, done, len), false, len)
  {
    hide Scan, Decimal, UpperCase, KeywordHash, ToInt16, Put, Continues;
    assert [p][1..] == [] && Cells([]) == 0;
    match p
    case Number(v) =>
      PutCounts(done, [v]);
      assert Shown(p) + more == [SPACE] + (Decimal(v) + more);
      ScanValue(v, more, done, len);
    case Word(chars) =>
      PutCounts(done, [ToInt16(KeywordHash(UpperCase(chars), 0))]);
      KeywordComesBack(chars, more, done, len);
    case Text(chars) =>
      assert Shown(p) + more == [SPACE, QUOTE] + (chars + [QUOTE] + more);
      StringIsRead(chars, more, done, len);
      PutCounts(done, [STRING_MARKER, ToInt16(len - |more| - 1 - |chars|)]);
  }

  /** A quoted string, at whatever place. */
  lemma StringIsRead(chars: seq<byte>, more: seq<byte>, done: Done, len: nat)
    requires |done.values| < MAX_COMMAND_PARAMS && NUL !in chars && QUOTE !in chars
    ensures |After(Text(chars), |more|, done, len).values| == |done.values| + 2
    ensures Scan([SPACE, QUOTE] + (chars + [QUOTE] + more), Skipping, done, false, len) ==
      if |done.values| == MAX_COMMAND_PARAMS - 1 then TooMany
      else Scan(more, Skipping, After(Text(chars), |more|, done, len), false, len)
  {
    var text := chars + [QUOTE] + more;
    var tail := [SPACE, QUOTE] + text;
    if |done.values| < MAX_COMMAND_PARAMS - 2 {
      hide Scan;
      StringComesBack(chars, more, done, false, len);
    } else if |done.values| == MAX_COMMAND_PARAMS - 2 {
      ScanQuote(text, done, false, len);
    } else {
      assert tail[1..] == [QUOTE] + text;
      TenthStringOverflows(text, done, false, len);
    }
  }

  lemma AllRead(text: seq<byte>, done: Done, len: nat)
    requires |done.values| == MAX_COMMAND_PARAMS
    ensures Scan(text, Skipping, done, false, len) == Values(done)
  {
  }

  lemma EndIsRead(done: Done, end: byte, rest: seq<byte>, len: nat)
    requires |done.values| < MAX_COMMAND_PARAMS && (end == GREATER || end == NUL)
    ensures Scan([end] + rest, Skipping, done, false, len)
         == if end == NUL then Failed(done) else Values(Cut(done, len - |rest| - 1))
  {
  }

  lemma MoreEnds(ps: seq<Param>, end: byte, rest: seq<byte>)
    requires end == GREATER || end == NUL
    ensures var more := All(ps) + ([end] + rest); more != [] && !Continues(more[0])
  {
    hide Decimal;
  }

  /** Main result: such a command is written behind the result array if and only if one of its quoted strings begins
      when exactly nine cells are taken. */
  lemma CommandOverflows(ps: seq<Param>, rest: seq<byte>, len: nat)
    requires forall i | 0 <= i < |ps| :: Printable(ps[i])
    ensures Scan(All(ps) + ([GREATER] + rest), Skipping, Done([], []), false, len) == TooMany
      <==> exists i | 0 <= i < |ps| :: ps[i].Text? && Cells(ps[..i]) == MAX_COMMAND_PARAMS - 1
  {
    hide Scan, Read, All;
    CommandComesBack(ps, Done([], []), GREATER, rest, len);
    ReadOverflows(ps, Done([], []), GREATER, |rest|, len);
  }

  lemma {:induction false} ReadOverflows(ps: seq<Param>, done: Done, end: byte, behind: nat, len: nat)
    requires |done.values| <= MAX_COMMAND_PARAMS
    ensures Read(ps, done, end, behind, len) == TooMany
      <==> exists i | 0 <= i < |ps| :: ps[i].Text? && |done.values| + Cells(ps[..i]) == MAX_COMMAND_PARAMS - 1
    decreases |ps|
  {
    hide ToInt16, KeywordHash, UpperCase, All;
    if ps != [] {
      var n := if ps[0].Text? then 2 else 1;
      forall i | 0 < i <= |ps| ensures Cells(ps[..i]) == n + Cells(ps[1..][..i - 1]) {
        assert ps[..i][1..] == ps[1..][..i - 1];
      }
      assert Cells(ps[..0]) == 0;
      if |done.values| < MAX_COMMAND_PARAMS && !(ps[0].Text? && |done.values| == MAX_COMMAND_PARAMS - 1) {
        var next := After(ps[0], |All(ps[1..])| + 1 + behind, done, len);
        assert |next.values| == |done.values| + n;
        ReadOverflows(ps[1..], next, end, behind, len);
      }
    }
  }

  /** Such a command: four strings, a number and one more string. */
  lemma FifthStringOverflows(rest: seq<byte>, len: nat)
    ensures var ps := [Text([97]), Text([98]), Text([99]), Text([100]), Number(5), Text([101])];
      Scan(All(ps) + ([GREATER] + rest), Skipping, Done([], []), false, len) == TooMany
  {
    hide Scan, All;
    var ps := [Text([97]), Text([98]), Text([99]), Text([100]), Number(5), Text([101])];
    CommandOverflows(ps, rest, len);
    var before := ps[..5];
    assert before[1..][1..][1..][1..] == [Number(5)];
    assert Cells([Number(5)]) == 1;
    assert Cells(before[1..][1..]) == 5;
    assert Cells(before) == 9;
  }

  // ---------- Spaces, and what is no parameter ----------

  /** Any number of spaces is as good as none. */
  lemma {:induction false} SpacesAreSkipped(n: nat, text: seq<byte>, done: Done, hex: bool, len: nat)
    requires |done.values| <= MAX_COMMAND_PARAMS
    ensures Scan(seq(n, _ => SPACE) + text, Skipping, done, hex, len) == Scan(text, Skipping, done, hex, len)
    decreases n
  {
    if n == 0 {
      assert seq(0, _ => SPACE) + text == text;
    } else {
      var all := seq(n, _ => SPACE) + text;
      assert all[0] == SPACE && all[1..] == seq(n - 1, _ => SPACE) + text;
      SpacesAreSkipped(n - 1, text, done, hex, len);
    }
  }

  /** The characters that are no part of a keyword or number. */
  ghost predicate IsJunk(c: byte) {
    c !in {SPACE, NUL, GREATER, QUOTE, MINUS} && forall k: string | IsKeyword(k) :: !Spells([c], k)
  }

  lemma JunkStops(c: byte)
    requires IsJunk(c)
    ensures !Continues(c)
  {
    if Continues(c) {
      PartSpells(c);
    }
  }

  lemma PartSpells(c: byte)
    requires Continues(c)
    ensures var k := [Upper(c) as char]; IsKeyword(k) && Spells([c], k)
  {
  }

  /** Any other character is a zero, and is not passed: all values that are left become zeros. */
  lemma {:induction false} JunkIsZeros(c: byte, rest: seq<byte>, done: Done, hex: bool, len: nat)
    requires |done.values| <= MAX_COMMAND_PARAMS && IsJunk(c)
    ensures Scan([c] + rest, Skipping, done, hex, len)
         == Values(Put(done, seq(MAX_COMMAND_PARAMS - |done.values|, _ => 0)))
    decreases MAX_COMMAND_PARAMS - |done.values|
  {
    var left := MAX_COMMAND_PARAMS - |done.values|;
    if left == 0 {
      assert done.values + seq(0, _ => 0) == done.values;
    } else {
      var next := Put(done, [0]);
      JunkStops(c);
      JunkIsOneZero(c, rest, done, hex, len);
      hide Scan, Continues;
      JunkIsZeros(c, rest, next, hex, len);
      assert done.values + [0] + seq(left - 1, _ => 0) == done.values + seq(left, _ => 0);
    }
  }

  lemma JunkIsOneZero(c: byte, rest: seq<byte>, done: Done, hex: bool, len: nat)
    requires |done.values| < MAX_COMMAND_PARAMS
    requires c !in {SPACE, NUL, GREATER, QUOTE, MINUS} && !Continues(c)
    ensures Scan([c] + rest, Skipping, done, hex, len) == Scan([c] + rest, Skipping, Put(done, [0]), hex, len)
  {
    var text := [c] + rest;
    hide Continues;
    ScanOnce(text, Skipping, done, hex, len);
    ScanOnce(text, Sign, done, hex, len);
    ScanOnce(text, Building(0, false), done, hex, len);
    assert Negated(0, false) == 0;
  }

  /** A string that is not closed is an error. */
  lemma {:induction false} OpenStringFails(chars: seq<byte>, rest: seq<byte>, done: Done, hex: bool, len: nat)
    requires |done.values| < MAX_COMMAND_PARAMS && NUL !in chars && QUOTE !in chars
    ensures Scan(chars + [NUL] + rest, Quoted, done, hex, len) == Failed(done)
    decreases |chars|
  {
    var text := chars + [NUL] + rest;
    if chars != [] {
      assert text[0] == chars[0] && text[1..] == chars[1..] + [NUL] + rest;
      OpenStringFails(chars[1..], rest, done, hex, len);
    }
  }

  // ---------- Hexadecimal ----------

  /** A number in hexadecimal, in upper case. */
  function HexDigits(n: nat): (d: seq<byte>)
    ensures d != [] && forall i | 0 <= i < |d| :: IsDigit(d[i]) || 65 <= d[i] <= 70
  {
    var last := n % 16;
    (if n < 16 then [] else HexDigits(n / 16)) + [if last < 10 then 48 + last else 55 + last]
  }

  lemma TakeHexDigit(n: nat, d: nat)
    requires d < 16
    ensures Continues(if d < 10 then 48 + d else 55 + d)
    ensures Take(ToInt16(n), if d < 10 then 48 + d else 55 + d, true) == ToInt16(16 * n + d)
  {
    var k := Int16Is(n);
    SameInt16(16 * n + d, 16 * ToInt16(n) + d, 16 * k);
  }

  /** Any number in hexadecimal is read as its value cut to 16 bits. */
  lemma {:induction false} HexDigitsRead(n: nat)
    ensures TakeAll(0, HexDigits(n), true) == ToInt16(n)
    decreases n
  {
    var d := n % 16;
    var last := [if d < 10 then 48 + d else 55 + d];
    assert last[1..] == [];
    TakeHexDigit(n / 16, d);
    assert 16 * (n / 16) + d == n;
    if n < 16 {
      assert HexDigits(n) == last;
    } else {
      HexDigitsRead(n / 16);
      TakeSum(0, HexDigits(n / 16), last, true);
    }
  }

  /** Lower case letters are read as upper case ones, in numbers and keywords alike. */
  lemma {:induction false} CaseDoesNotMatter(r: int, chars: seq<byte>, hex: bool)
    requires forall i | 0 <= i < |chars| :: Continues(chars[i])
    ensures forall i | 0 <= i < |chars| :: Continues(UpperCase(chars)[i])
    ensures TakeAll(r, UpperCase(chars), hex) == TakeAll(r, chars, hex)
    decreases |chars|
  {
    if chars != [] {
      assert UpperCase(chars)[0] == Upper(chars[0]) && UpperCase(chars)[1..] == UpperCase(chars[1..]);
      CaseDoesNotMatter(Take(r, chars[0], hex), chars[1..], hex);
    }
  }

  /** Main result on hexadecimal commands: a number, in either case, is scanned as its value cut to 16 bits. */
  lemma HexComesBack(n: nat, chars: seq<byte>, more: seq<byte>, done: Done, len: nat)
    requires UpperCase(chars) == HexDigits(n) && |done.values| < MAX_COMMAND_PARAMS && more != [] && !Continues(more[0])
    ensures Scan([SPACE] + (chars + more), Skipping, done, true, len)
         == Scan(more, Skipping, Put(done, [ToInt16(n)]), true, len)
  {
    forall i | 0 <= i < |chars| ensures Continues(chars[i]) {
      assert Upper(chars[i]) == HexDigits(n)[i];
    }
    hide Scan, TakeAll, Take, Negated, ToInt16, HexDigits, Xor;
    var text := chars + more;
    assert |chars| == |HexDigits(n)| && text[0] == chars[0];
    assert Continues(text[0]);
    assert text[0] !in {SPACE, NUL, GREATER, QUOTE, MINUS};
    StartOfAny(text, done, len);
    ScanRun(chars, more, 0, false, done, true, len);
    CaseDoesNotMatter(0, chars, true);
    HexDigitsRead(n);
    CutIsKept(n);
  }

  lemma {:induction false} HashesInHex(r: int, word: seq<byte>)
    requires forall i | 0 <= i < |word| :: Continues(word[i]) && !IsDigit(word[i]) && !(65 <= Upper(word[i]) <= 70)
    ensures TakeAll(r, word, true) == TakeAll(r, word, false)
    decreases |word|
  {
    if word != [] {
      HashesInHex(Take(r, word[0], false), word[1..]);
    }
  }

  /** In hexadecimal commands a keyword without digits and the letters from A to F is still found. */
  lemma KeywordInHex(keyword: string, word: seq<byte>, more: seq<byte>, done: Done, len: nat)
    requires IsKeyword(keyword) && Spells(word, keyword) && word != []
    requires forall i | 0 <= i < |keyword| :: keyword[i] > 'F'
    requires |done.values| < MAX_COMMAND_PARAMS && more != [] && more[0] in {SPACE, NUL, GREATER}
    ensures Scan([SPACE] + (word + more), Skipping, done, true, len)
         == Scan(more, Skipping, Put(done, [ToInt16(KeywordHash(Codes(keyword), 0))]), true, len)
  {
    hide Scan, TakeAll, KeywordHash, Take, Xor, Negated, ToInt16;
    assert UpperCase(word) == Codes(keyword);
    var text := word + more;
    assert text[0] == word[0] && text[0] !in {SPACE, NUL, GREATER, QUOTE, MINUS};
    StartOfAny(text, done, len);
    ScanRun(word, more, 0, false, done, true, len);
    ZeroFits();
    HashesInHex(0, word);
    KeywordHashes(word, 0);
    HashIsKept(KeywordHash(UpperCase(word), 0));
  }

  lemma StartOfAny(text: seq<byte>, done: Done, len: nat)
    requires |done.values| < MAX_COMMAND_PARAMS && text != [] && text[0] !in {SPACE, NUL, GREATER, QUOTE, MINUS}
    ensures Scan([SPACE] + text, Skipping, done, true, len) == Scan(text, Building(0, false), done, true, len)
  {
    ScanStart(text, done, true, len);
  }

  lemma CutIsKept(n: nat)
    ensures Negated(ToInt16(n), false) == ToInt16(n)
  {
  }
}

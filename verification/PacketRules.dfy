/** What every run of DCCQueue keeps: coalescing, dequeue order, repeats and accessory timing. */
module PacketRules {
  import opened Bytes
  import opened PacketQueue

  // ---------- Coalescing ----------

  /** The high queue holds speed and gate-off entries, at most one speed entry for each loco; the low
      queue holds the rest, at most one entry for each loco and function group. */
  ghost predicate Coalesced(q: Queues) {
    && (forall i | 0 <= i < |q.high| :: q.high[i].kind.SPEED? || q.high[i].kind.ACC_OFF?)
    && (forall i | 0 <= i < |q.low| :: !q.low[i].kind.SPEED? && !q.low[i].kind.ACC_OFF?)
    && (forall i, j | 0 <= i < j < |q.high| ::
          q.high[i].kind.SPEED? && q.high[j].kind.SPEED? && q.high[i].LocoId() != 0 ==>
            q.high[i].LocoId() != q.high[j].LocoId())
    && (forall i, j | 0 <= i < j < |q.low| ::
          q.low[i].kind.FUNCTION? && q.low[i].kind == q.low[j].kind ==> q.low[i].LocoId() != q.low[j].LocoId())
  }

  lemma SurvivorsAreOld(q: seq<Entry>, loco: nat) returns (at: seq<nat>)
    ensures |at| == |Survivors(q, loco)|
    ensures forall i | 0 <= i < |at| :: at[i] < |q| && Survivors(q, loco)[i] == q[at[i]] && !Stopped(q[at[i]], loco)
    ensures forall i, j | 0 <= i < j < |at| :: at[i] < at[j]
  {
    at := SurvivorsFrom(q, loco, 0);
    assert q[0..] == q;
  }

  lemma {:induction false} SurvivorsFrom(q: seq<Entry>, loco: nat, n: nat) returns (at: seq<nat>)
    requires n <= |q|
    ensures |at| == |Survivors(q[n..], loco)|
    ensures forall i | 0 <= i < |at| :: n <= at[i] < |q| && !Stopped(q[at[i]], loco)
    ensures forall i | 0 <= i < |at| :: Survivors(q[n..], loco)[i] == q[at[i]]
    ensures forall i, j | 0 <= i < j < |at| :: at[i] < at[j]
    decreases |q| - n
  {
    if n == |q| {
      at := [];
    } else {
      var rest := SurvivorsFrom(q, loco, n + 1);
      assert q[n..][1..] == q[n + 1..];
      at := (if Stopped(q[n], loco) then [] else [n]) + rest;
      hide Stopped;
    }
  }

  lemma DrainedIsOld(q: seq<Entry>, i: nat, k: nat) returns (at: nat)
    requires i < |q| && k < |Drained(q, i)|
    ensures at < |q| && Drained(q, i)[k].kind == q[at].kind && Drained(q, i)[k].word == q[at].word
    ensures Drained(q, i)[k].packet == q[at].packet && Drained(q, i)[k].tag == q[at].tag
    ensures at == if Stays(q[i]) || k < i then k else k + 1
  {
    at := if Stays(q[i]) || k < i then k else k + 1;
  }

  lemma EstopKeepsCoalesced(q: Queues, packet: seq<byte>, repeats: nat, loco: nat)
    requires Coalesced(q)
    ensures Coalesced(ScheduleEstop(q, packet, repeats, loco))
  {
    var at := SurvivorsAreOld(q.high, loco);
    var h := ScheduleEstop(q, packet, repeats, loco).high;
    forall i, j | 0 <= i < j < |h| && h[i].kind.SPEED? && h[j].kind.SPEED? && h[i].LocoId() != 0
      ensures h[i].LocoId() != h[j].LocoId()
    {
      assert i > 0;
      assert h[i] == q.high[at[i - 1]] && h[j] == q.high[at[j - 1]] && at[i - 1] < at[j - 1];
    }
  }

  lemma SendHighKeepsCoalesced(q: Queues, i: nat, now: nat)
    requires Coalesced(q) && i < |q.high|
    ensures Coalesced(SendHigh(q, i, now))
  {
    hide OffEntry, Transmission, Logged, Stays, Drained;
    var h := SendHigh(q, i, now).high;
    assert Jumped(q.high[i], now) == [] && h == Drained(q.high, i);
    forall m | 0 <= m < |h| ensures h[m].kind.SPEED? || h[m].kind.ACC_OFF? {
      var at := DrainedIsOld(q.high, i, m);
    }
    forall m, n | 0 <= m < n < |h| && h[m].kind.SPEED? && h[n].kind.SPEED? && h[m].LocoId() != 0
      ensures h[m].LocoId() != h[n].LocoId()
    {
      var at := DrainedIsOld(q.high, i, m);
      var to := DrainedIsOld(q.high, i, n);
      assert at < to;
    }
  }

  lemma SendLowKeepsCoalesced(q: Queues, i: nat, now: nat)
    requires Coalesced(q) && i < |q.low|
    ensures Coalesced(SendLow(q, i, now))
  {
    hide Transmission, Logged, Stays;
  }

  lemma SpeedKeepsCoalesced(q: Queues, packet: seq<byte>, repeats: nat, loco: nat)
    requires Coalesced(q) && loco < 0x1_0000
    ensures Coalesced(ScheduleSpeed(q, packet, repeats, loco))
  {
  }

  lemma FunctionKeepsCoalesced(q: Queues, packet: seq<byte>, loco: nat, group: nat)
    requires Coalesced(q) && loco < 0x1_0000
    ensures Coalesced(ScheduleFunction(q, packet, loco, group))
  {
  }

  lemma StepKeepsCoalesced(q: Queues, op: Op)
    requires Coalesced(q) && Typed(op)
    ensures Coalesced(Apply(q, op))
  {
    match op
    case Packet(_, _, _) =>
    case Speed(packet, repeats, loco) => SpeedKeepsCoalesced(q, packet, repeats, loco);
    case Function(packet, loco, group) => FunctionKeepsCoalesced(q, packet, loco, group);
    case Estop(packet, repeats, loco) => EstopKeepsCoalesced(q, packet, repeats, loco);
    case Accessory(_, _, _) =>
    case Next(force, now) =>
      var i, j := FindSendable(q.high, now, q.last), FindSendable(q.low, now, q.last);
      if i < |q.high| {
        SendHighKeepsCoalesced(q, i, now);
      } else if j < |q.low| {
        SendLowKeepsCoalesced(q, j, now);
      }
  }

  /** Main result: in every run, speed packets of one loco and function packets of one group coalesce. */
  lemma {:induction false} RunsStayCoalesced(ops: seq<Op>)
    requires forall k | 0 <= k < |ops| :: Typed(ops[k])
    ensures Coalesced(Run(EMPTY, ops))
    decreases |ops|
  {
    if ops != [] {
      RunsStayCoalesced(ops[..|ops| - 1]);
      StepKeepsCoalesced(Run(EMPTY, ops[..|ops| - 1]), ops[|ops| - 1]);
    }
  }

  // ---------- Emergency stops come first ----------

  /** Requests other than emergency stops; the only speed packets for loco 0 are emergency stops. */
  predicate LeavesEstopFirst(op: Op) {
    match op
    case Estop(_, _, _) => false
    case Speed(_, _, loco) => 0 < loco < 0x1_0000
    case Next(_, _) => false
    case _ => true
  }

  /** A scheduled emergency stop is the next packet to be sent, whatever is requested in between. */
  lemma {:induction false} EstopIsSentNext(q: Queues, packet: seq<byte>, repeats: nat, loco: nat, ops: seq<Op>,
      force: bool, now: nat)
    requires |packet| <= MAX_PACKET_SIZE
    requires forall k | 0 <= k < |ops| :: LeavesEstopFirst(ops[k])
    ensures var t := ScheduleNext(Run(ScheduleEstop(q, packet, repeats, loco), ops), force, now);
      && t.log == q.log + [Sent(packet, repeats, 0, q.next, false, now)]
      && t.last == 0
  {
    var s := ScheduleEstop(q, packet, repeats, loco);
    EstopStaysFirst(s, ops);
    var e := Entry(SPEED, packet, repeats, 0, q.next);
    assert s.high[0] == e && Sendable(e, now, Run(s, ops).last);
  }

  lemma {:induction false} EstopStaysFirst(s: Queues, ops: seq<Op>)
    requires s.high != [] && s.high[0].LocoId() == 0
    requires forall k | 0 <= k < |ops| :: LeavesEstopFirst(ops[k])
    ensures var t := Run(s, ops);
      t.high != [] && t.high[0] == s.high[0] && t.log == s.log && t.last == s.last
    decreases |ops|
  {
    if ops != [] {
      EstopStaysFirst(s, ops[..|ops| - 1]);
    }
  }

  // ---------- Emergency stops pile up ----------

  /** An emergency stop that waits in the high queue; its slot has loco id 0. */
  predicate IsStop(e: Entry) {
    e.kind.SPEED? && e.LocoId() == 0
  }

  lemma {:induction false} SurvivorsAre(q: seq<Entry>, loco: nat, e: Entry)
    ensures e in Survivors(q, loco) <==> e in q && !Stopped(e, loco)
    decreases |q|
  {
    if q != [] {
      SurvivorsAre(q[1..], loco, e);
      assert e in q <==> e == q[0] || e in q[1..];
    }
  }

  /** A waiting emergency stop is removed by a later one exactly if that one is for all locos, and not if it is
      for the same loco. */
  lemma EarlierStopsStay(q: Queues, packet: seq<byte>, repeats: nat, loco: nat, e: Entry)
    requires e in q.high && IsStop(e) && e.tag < q.next
    ensures e in ScheduleEstop(q, packet, repeats, loco).high <==> loco != 0
  {
    SurvivorsAre(q.high, loco, e);
    assert Stopped(e, loco) <==> loco == 0;
  }

  /** An input that shows it: two emergency stops of loco 3. */
  lemma TwoStopsOfOneLoco()
    ensures |ScheduleEstop(ScheduleEstop(EMPTY, [3, 0x3F, 1], 4, 3), [3, 0x3F, 0x81], 4, 3).high| == 2
  {
    var first := Entry(SPEED, [3, 0x3F, 1], 4, 0, 0);
    assert Survivors([], 3) == [];
    assert ScheduleEstop(EMPTY, [3, 0x3F, 1], 4, 3).high == [first];
    assert [first][1..] == [];
    assert Survivors([first], 3) == [first];
  }

  function Stops(q: seq<Entry>): nat {
    if q == [] then 0 else (if IsStop(q[0]) then 1 else 0) + Stops(q[1..])
  }

  lemma {:induction false} StopsSum(a: seq<Entry>, b: seq<Entry>)
    ensures Stops(a + b) == Stops(a) + Stops(b)
    decreases |a|
  {
    if a == [] {
      assert a + b == b;
    } else {
      assert (a + b)[1..] == a[1..] + b;
      StopsSum(a[1..], b);
    }
  }

  lemma StopsOne(e: Entry)
    ensures Stops([e]) == if IsStop(e) then 1 else 0
  {
  }

  lemma StopsAt(q: seq<Entry>, i: nat, e: Entry)
    requires i < |q| && IsStop(e) == IsStop(q[i])
    ensures Stops(q[i := e]) == Stops(q)
  {
    hide IsStop, Stops;
    assert q == q[..i] + ([q[i]] + q[i + 1..]) && q[i := e] == q[..i] + ([e] + q[i + 1..]);
    StopsSum(q[..i], [q[i]] + q[i + 1..]);
    StopsSum([q[i]], q[i + 1..]);
    StopsSum(q[..i], [e] + q[i + 1..]);
    StopsSum([e], q[i + 1..]);
    StopsOne(e);
    StopsOne(q[i]);
  }

  lemma {:induction false} SurvivorStops(q: seq<Entry>, loco: nat)
    ensures Stops(Survivors(q, loco)) == if loco == 0 then 0 else Stops(q)
    decreases |q|
  {
    if q != [] {
      SurvivorStops(q[1..], loco);
      StopsSum(if Stopped(q[0], loco) then [] else [q[0]], Survivors(q[1..], loco));
      StopsOne(q[0]);
    }
  }

  /** How many emergency stops wait after some requests: all that were asked for since the last one for all
      locos, with that, or since ever. */
  function Piled(n: nat, ops: seq<Op>): nat {
    if ops == [] then n
    else
      var before := Piled(n, ops[..|ops| - 1]);
      match ops[|ops| - 1]
      case Estop(_, _, loco) => if loco == 0 then 1 else before + 1
      case _ => before
  }

  /** In any run of requests without a dequeue, each emergency stop adds an entry, however many there are for
      the same loco, and only one for all locos removes the others. */
  lemma {:induction false} StopsPileUp(q: Queues, ops: seq<Op>)
    requires forall k | 0 <= k < |ops| :: ops[k].Estop? || LeavesEstopFirst(ops[k])
    ensures Stops(Run(q, ops).high) == Piled(Stops(q.high), ops)
    decreases |ops|
  {
    if ops != [] {
      var n := |ops| - 1;
      StopsPileUp(q, ops[..n]);
      RequestPilesUp(Run(q, ops[..n]), ops[n]);
    }
  }

  /** So n emergency stops of one loco wait one after the other. */
  lemma {:induction false} StopsOfOneLoco(q: Queues, ops: seq<Op>, loco: nat)
    requires loco != 0 && forall k | 0 <= k < |ops| :: ops[k].Estop? && ops[k].loco == loco
    ensures Stops(Run(q, ops).high) == Stops(q.high) + |ops|
    decreases |ops|
  {
    if ops != [] {
      StopsOfOneLoco(q, ops[..|ops| - 1], loco);
      RequestPilesUp(Run(q, ops[..|ops| - 1]), ops[|ops| - 1]);
    }
  }

  lemma RequestPilesUp(q: Queues, op: Op)
    requires op.Estop? || LeavesEstopFirst(op)
    ensures Stops(Apply(q, op).high) ==
      if op.Estop? then (if op.loco == 0 then 1 else Stops(q.high) + 1) else Stops(q.high)
  {
    hide Stops, Survivors;
    match op
    case Estop(packet, repeats, loco) =>
      var e := Entry(SPEED, packet, repeats, 0, q.next);
      StopsOne(e);
      StopsSum([e], Survivors(q.high, loco));
      SurvivorStops(q.high, loco);
    case Speed(packet, repeats, loco) =>
      var i := FindLoco(q.high, loco);
      if i < |q.high| {
        StopsAt(q.high, i, q.high[i].(packet := packet, repeats := repeats, tag := q.next));
      } else {
        var e := Entry(SPEED, packet, repeats, loco, q.next);
        StopsOne(e);
        StopsSum(q.high, [e]);
      }
    case _ =>
  }

  // ---------- No two packets in a row for one loco ----------

  predicate Fits(op: Op) {
    op.Next? || |op.packet| <= MAX_PACKET_SIZE
  }

  ghost predicate AllFit(q: Queues) {
    && (forall i | 0 <= i < |q.high| :: |q.high[i].packet| <= MAX_PACKET_SIZE)
    && (forall i | 0 <= i < |q.low| :: |q.low[i].packet| <= MAX_PACKET_SIZE)
  }

  ghost predicate Alternating(log: seq<Sent>, last: nat) {
    && last == (if log == [] then 0 else log[|log| - 1].loco)
    && forall i | 0 <= i < |log| - 1 :: log[i].loco != 0 ==> log[i + 1].loco != log[i].loco
  }

  lemma StepKeepsFits(q: Queues, op: Op)
    requires AllFit(q) && Fits(op)
    ensures AllFit(Apply(q, op))
  {
    if op.Estop? {
      var at := SurvivorsAreOld(q.high, op.loco);
    } else if op.Next? {
      NextKeepsFits(q, op.force, op.now);
    }
  }

  lemma NextKeepsFits(q: Queues, force: bool, now: nat)
    requires AllFit(q)
    ensures AllFit(ScheduleNext(q, force, now))
  {
    hide Sendable, Transmission, Logged, Stays;
  }

  lemma SendAlternates(q: Queues, now: nat, force: bool)
    requires AllFit(q) && Alternating(q.log, q.last)
    ensures Alternating(ScheduleNext(q, force, now).log, ScheduleNext(q, force, now).last)
  {
  }

  /** In every run, two packets in a row never carry the same non-zero loco id. */
  lemma {:induction false} RunsAlternate(ops: seq<Op>)
    requires forall k | 0 <= k < |ops| :: Fits(ops[k])
    ensures AllFit(Run(EMPTY, ops)) && Alternating(Run(EMPTY, ops).log, Run(EMPTY, ops).last)
    decreases |ops|
  {
    if ops != [] {
      var before, op := Run(EMPTY, ops[..|ops| - 1]), ops[|ops| - 1];
      RunsAlternate(ops[..|ops| - 1]);
      StepKeepsFits(before, op);
      if op.Next? {
        SendAlternates(before, op.now, op.force);
      }
    }
  }

  // ---------- Conservation of transmissions ----------

  /** How many transmissions an entry asks for, of itself or (`off`) of its gate-off packet. */
  function Part(e: Entry, off: bool): nat {
    if !off then (if e.kind.ACC_OFF? then 0 else e.repeats + 1)
    else if e.kind.ACC_ON? then (if e.LocoId() != 0 then 1 else e.repeats + 1)
    else if e.kind.ACC_OFF? then e.repeats + 1
    else 0
  }

  /** How many transmissions the entries of a request still ask for. */
  function Owed(q: seq<Entry>, tag: nat, off: bool): nat {
    if q == [] then 0
    else (if q[0].tag == tag then Part(q[0], off) else 0) + Owed(q[1..], tag, off)
  }

  /** How many transmissions a request has had. */
  function Given(log: seq<Sent>, tag: nat, off: bool): nat {
    if log == [] then 0
    else
      var s := log[|log| - 1];
      Given(log[..|log| - 1], tag, off) + (if s.tag == tag && s.off == off then s.repeats + 1 else 0)
  }

  lemma {:induction false} OwedSum(a: seq<Entry>, b: seq<Entry>, tag: nat, off: bool)
    ensures Owed(a + b, tag, off) == Owed(a, tag, off) + Owed(b, tag, off)
    decreases |a|
  {
    if a == [] {
      assert a + b == b;
    } else {
      assert (a + b)[1..] == a[1..] + b;
      OwedSum(a[1..], b, tag, off);
    }
  }

  lemma OwedOne(e: Entry, tag: nat, off: bool)
    ensures Owed([e], tag, off) == if e.tag == tag then Part(e, off) else 0
  {
  }

  lemma OwedParts(q: seq<Entry>, i: nat, e: Entry, tag: nat, off: bool)
    requires i < |q|
    ensures Owed(q, tag, off) == Owed(q[..i], tag, off) + Owed([q[i]], tag, off) + Owed(q[i + 1..], tag, off)
    ensures Owed(q[i := e], tag, off) == Owed(q[..i], tag, off) + Owed([e], tag, off) + Owed(q[i + 1..], tag, off)
    ensures Owed(Without(q, i), tag, off) == Owed(q[..i], tag, off) + Owed(q[i + 1..], tag, off)
  {
    hide Owed;
    assert q == q[..i] + ([q[i]] + q[i + 1..]);
    assert q[i := e] == q[..i] + ([e] + q[i + 1..]);
    OwedSum(q[..i], [q[i]] + q[i + 1..], tag, off);
    OwedSum([q[i]], q[i + 1..], tag, off);
    OwedSum(q[..i], [e] + q[i + 1..], tag, off);
    OwedSum([e], q[i + 1..], tag, off);
    OwedSum(q[..i], q[i + 1..], tag, off);
  }

  lemma LoggedIsGiven(log: seq<Sent>, s: Sent, tag: nat, off: bool)
    requires |s.packet| <= MAX_PACKET_SIZE
    ensures Given(Logged(log, s), tag, off) ==
      Given(log, tag, off) + if s.tag == tag && s.off == off then s.repeats + 1 else 0
  {
    assert Logged(log, s)[..|log|] == log;
  }

  /** Of an entry that is sent, some is given and the rest is still owed. */
  lemma PartIsGiven(e: Entry, now: nat, off: bool)
    ensures Part(e, off) == (if (e.kind == ACC_OFF) == off then Transmission(e, now).repeats + 1 else 0)
      + (if Stays(e) then Part(e.(repeats := e.repeats - 1), off)
         else if e.kind == ACC_ON then Part(OffEntry(e, now), off) else 0)
  {
  }

  /** Sending from a queue moves exactly what is transmitted from owed to given. */
  lemma DrainConserves(q: seq<Entry>, i: nat, now: nat, log: seq<Sent>, tag: nat, off: bool)
    requires i < |q| && |q[i].packet| <= MAX_PACKET_SIZE
    ensures var e := q[i];
      Owed(Jumped(e, now), tag, off) + Owed(Drained(q, i), tag, off)
        + Given(Logged(log, Transmission(e, now)), tag, off)
        == Owed(q, tag, off) + Given(log, tag, off)
  {
    hide Owed, Given, OffEntry, Part;
    var e := q[i];
    var t := e.(repeats := if e.repeats > 0 then e.repeats - 1 else 0);
    OwedParts(q, i, t, tag, off);
    OwedOne(e, tag, off);
    OwedOne(t, tag, off);
    JumpedOwes(e, now, tag, off);
    PartIsGiven(e, now, off);
    LoggedIsGiven(log, Transmission(e, now), tag, off);
  }

  lemma JumpedOwes(e: Entry, now: nat, tag: nat, off: bool)
    ensures Owed(Jumped(e, now), tag, off)
         == if e.tag == tag && e.kind == ACC_ON && !Stays(e) then Part(OffEntry(e, now), off) else 0
  {
    hide Owed, Part;
    OwedOne(OffEntry(e, now), tag, off);
    OwedNothing([], tag, off);
  }

  /** Does this request take the slot of, or discard, the entry with this tag? */
  ghost predicate Displaces(q: Queues, op: Op, tag: nat) {
    match op
    case Speed(_, _, loco) => var i := FindLoco(q.high, loco); i < |q.high| && q.high[i].tag == tag
    case Function(_, loco, group) =>
      var i := FindFunction(q.low, loco, group); 1 <= group <= 5 && i < |q.low| && q.low[i].tag == tag
    case Estop(_, _, loco) => exists i | 0 <= i < |q.high| :: q.high[i].tag == tag && Stopped(q.high[i], loco)
    case _ => false
  }

  lemma {:induction false} SurvivorsOwe(q: seq<Entry>, loco: nat, tag: nat, off: bool)
    requires forall i | 0 <= i < |q| :: q[i].tag == tag ==> !Stopped(q[i], loco)
    ensures Owed(Survivors(q, loco), tag, off) == Owed(q, tag, off)
    decreases |q|
  {
    if q != [] {
      SurvivorsOwe(q[1..], loco, tag, off);
      OwedSum(if Stopped(q[0], loco) then [] else [q[0]], Survivors(q[1..], loco), tag, off);
    }
  }

  function Total(q: Queues, tag: nat, off: bool): nat {
    Owed(q.high, tag, off) + Owed(q.low, tag, off) + Given(q.log, tag, off)
  }

  lemma NextConserves(q: Queues, force: bool, now: nat, tag: nat, off: bool)
    requires AllFit(q)
    ensures Total(ScheduleNext(q, force, now), tag, off) == Total(q, tag, off)
  {
    var i := FindSendable(q.high, now, q.last);
    var j := FindSendable(q.low, now, q.last);
    if i < |q.high| {
      DrainConserves(q.high, i, now, q.log, tag, off);
      OwedSum(Jumped(q.high[i], now), Drained(q.high, i), tag, off);
    } else if j < |q.low| {
      DrainConserves(q.low, j, now, q.log, tag, off);
      OwedSum(Jumped(q.low[j], now), q.high, tag, off);
    } else if force {
      var idle := Sent(IDLE, 0, 0, -1, false, now);
      assert (q.log + [idle])[..|q.log|] == q.log;
    }
  }

  lemma RequestConserves(q: Queues, op: Op, tag: nat, off: bool)
    requires !op.Next? && tag < q.next && !Displaces(q, op, tag)
    ensures Total(Apply(q, op), tag, off) == Total(q, tag, off)
  {
    hide Owed, Given;
    match op
    case Packet(packet, repeats, loco) =>
      OwedOne(Entry(NORMAL, packet, repeats, loco, q.next), tag, off);
      OwedSum(q.low, [Entry(NORMAL, packet, repeats, loco, q.next)], tag, off);
    case Speed(packet, repeats, loco) =>
      var i := FindLoco(q.high, loco);
      if i < |q.high| {
        OwedOne(q.high[i], tag, off);
        OwedOne(q.high[i].(packet := packet, repeats := repeats, tag := q.next), tag, off);
        OwedParts(q.high, i, q.high[i].(packet := packet, repeats := repeats, tag := q.next), tag, off);
      } else {
        OwedOne(Entry(SPEED, packet, repeats, loco, q.next), tag, off);
        OwedSum(q.high, [Entry(SPEED, packet, repeats, loco, q.next)], tag, off);
      }
    case Function(packet, loco, group) =>
      var i := FindFunction(q.low, loco, group);
      if 1 <= group <= 5 {
        if i < |q.low| {
          OwedOne(q.low[i], tag, off);
          OwedOne(q.low[i].(packet := packet, repeats := 0, tag := q.next), tag, off);
          OwedParts(q.low, i, q.low[i].(packet := packet, repeats := 0, tag := q.next), tag, off);
        } else {
          OwedOne(Entry(FUNCTION(group), packet, 0, loco, q.next), tag, off);
          OwedSum(q.low, [Entry(FUNCTION(group), packet, 0, loco, q.next)], tag, off);
        }
      }
    case Estop(packet, repeats, loco) =>
      SurvivorsOwe(q.high, loco, tag, off);
      OwedOne(Entry(SPEED, packet, repeats, 0, q.next), tag, off);
      OwedSum([Entry(SPEED, packet, repeats, 0, q.next)], Survivors(q.high, loco), tag, off);
    case Accessory(packet, repeats, delay) =>
      OwedOne(Entry(ACC_ON, packet, repeats, delay % 0x1_0000, q.next), tag, off);
      OwedSum(q.low, [Entry(ACC_ON, packet, repeats, delay % 0x1_0000, q.next)], tag, off);
    case Next(_, _) =>
  }

  /** Main result: a request that is neither replaced nor stopped is transmitted exactly as often as it
      asked for, one way or the other accounted for at every moment of every run; and so is the gate-off
      packet that it leads to. */
  lemma {:induction false} RunsConserve(q: Queues, ops: seq<Op>, tag: nat, off: bool)
    requires AllFit(q) && tag < q.next
    requires forall k | 0 <= k < |ops| :: Fits(ops[k]) && !Displaces(Run(q, ops[..k]), ops[k], tag)
    ensures AllFit(Run(q, ops)) && q.next <= Run(q, ops).next
    ensures Total(Run(q, ops), tag, off) == Total(q, tag, off)
    decreases |ops|
  {
    if ops != [] {
      var n := |ops| - 1;
      forall k | 0 <= k < n
        ensures Fits(ops[..n][k]) && !Displaces(Run(q, ops[..n][..k]), ops[..n][k], tag)
      {
        assert ops[..n][..k] == ops[..k];
      }
      RunsConserve(q, ops[..n], tag, off);
      var before, op := Run(q, ops[..n]), ops[n];
      StepKeepsFits(before, op);
      StepConserves(before, op, tag, off);
    }
  }

  lemma StepConserves(q: Queues, op: Op, tag: nat, off: bool)
    requires AllFit(q) && tag < q.next && !Displaces(q, op, tag)
    ensures q.next <= Apply(q, op).next
    ensures Total(Apply(q, op), tag, off) == Total(q, tag, off)
  {
    if op.Next? {
      NextConserves(q, op.force, op.now, tag, off);
    } else {
      RequestConserves(q, op, tag, off);
    }
  }

  // ---------- A request and its transmissions ----------

  /** Tags are handed out in order. */
  ghost predicate Fresh(q: Queues) {
    && (forall i | 0 <= i < |q.high| :: q.high[i].tag < q.next)
    && (forall i | 0 <= i < |q.low| :: q.low[i].tag < q.next)
    && (forall i | 0 <= i < |q.log| :: q.log[i].tag < q.next)
  }

  lemma NextKeepsFresh(q: Queues, force: bool, now: nat)
    requires Fresh(q)
    ensures Fresh(ScheduleNext(q, force, now))
  {
    hide Drained, Stays, Jumped;
    var i, j := FindSendable(q.high, now, q.last), FindSendable(q.low, now, q.last);
    if i < |q.high| {
      DrainKeepsTags(q.high, i, now, q.next);
    } else if j < |q.low| {
      DrainKeepsTags(q.low, j, now, q.next);
    }
  }

  lemma DrainKeepsTags(q: seq<Entry>, i: nat, now: nat, next: nat)
    requires i < |q| && forall k | 0 <= k < |q| :: q[k].tag < next
    ensures forall k | 0 <= k < |Jumped(q[i], now)| :: Jumped(q[i], now)[k].tag < next
    ensures forall k | 0 <= k < |Drained(q, i)| :: Drained(q, i)[k].tag < next
  {
    forall k | 0 <= k < |Drained(q, i)| ensures Drained(q, i)[k].tag < next {
      var at := DrainedIsOld(q, i, k);
    }
  }

  lemma StepKeepsFresh(q: Queues, op: Op)
    requires Fresh(q)
    ensures Fresh(Apply(q, op))
  {
    if op.Estop? {
      var at := SurvivorsAreOld(q.high, op.loco);
    } else if op.Next? {
      NextKeepsFresh(q, op.force, op.now);
    }
  }

  lemma {:induction false} RunsStayFresh(ops: seq<Op>)
    requires forall k | 0 <= k < |ops| :: Fits(ops[k])
    ensures Fresh(Run(EMPTY, ops)) && AllFit(Run(EMPTY, ops))
    decreases |ops|
  {
    if ops != [] {
      RunsStayFresh(ops[..|ops| - 1]);
      StepKeepsFresh(Run(EMPTY, ops[..|ops| - 1]), ops[|ops| - 1]);
      StepKeepsFits(Run(EMPTY, ops[..|ops| - 1]), ops[|ops| - 1]);
    }
  }

  lemma {:induction false} OwedNothing(q: seq<Entry>, tag: nat, off: bool)
    requires forall i | 0 <= i < |q| :: q[i].tag != tag
    ensures Owed(q, tag, off) == 0
    decreases |q|
  {
    if q != [] {
      OwedNothing(q[1..], tag, off);
    }
  }

  lemma {:induction false} GivenNothing(log: seq<Sent>, tag: nat, off: bool)
    requires forall i | 0 <= i < |log| :: log[i].tag != tag
    ensures Given(log, tag, off) == 0
    decreases |log|
  {
    if log != [] {
      GivenNothing(log[..|log| - 1], tag, off);
    }
  }

  /** What a fresh request asks for: its repeats and one more. */
  function Asked(op: Op): nat {
    match op
    case Function(_, _, _) => 1
    case Next(_, _) => 0
    case _ => op.repeats + 1
  }

  lemma ReplacedIsOwed(q: seq<Entry>, i: nat, e: Entry, tag: nat)
    requires i < |q| && q[i].tag != tag && e.tag == tag && Owed(q, tag, false) == 0
    ensures Owed(q[i := e], tag, false) == if e.kind.ACC_OFF? then 0 else e.repeats + 1
  {
    OwedParts(q, i, e, tag, false);
    OwedOne(e, tag, false);
  }

  lemma RequestIsOwed(q: Queues, op: Op)
    requires Fresh(q) && !op.Next? && (op.Function? ==> 1 <= op.group <= 5)
    requires op.Speed? ==> var i := FindLoco(q.high, op.loco); i < |q.high| ==> !q.high[i].kind.ACC_OFF?
    ensures Total(Apply(q, op), q.next, false) == Asked(op)
  {
    hide Owed, Given;
    var tag := q.next;
    OwedNothing(q.high, tag, false);
    OwedNothing(q.low, tag, false);
    GivenNothing(q.log, tag, false);
    match op
    case Packet(packet, repeats, loco) =>
      OwedOne(Entry(NORMAL, packet, repeats, loco, tag), tag, false);
      OwedSum(q.low, [Entry(NORMAL, packet, repeats, loco, tag)], tag, false);
    case Speed(packet, repeats, loco) =>
      var i := FindLoco(q.high, loco);
      if i < |q.high| {
        ReplacedIsOwed(q.high, i, q.high[i].(packet := packet, repeats := repeats, tag := tag), tag);
      } else {
        OwedOne(Entry(SPEED, packet, repeats, loco, tag), tag, false);
        OwedSum(q.high, [Entry(SPEED, packet, repeats, loco, tag)], tag, false);
      }
    case Function(packet, loco, group) =>
      var i := FindFunction(q.low, loco, group);
      if i < |q.low| {
        ReplacedIsOwed(q.low, i, q.low[i].(packet := packet, repeats := 0, tag := tag), tag);
      } else {
        OwedOne(Entry(FUNCTION(group), packet, 0, loco, tag), tag, false);
        OwedSum(q.low, [Entry(FUNCTION(group), packet, 0, loco, tag)], tag, false);
      }
    case Estop(packet, repeats, loco) =>
      var at := SurvivorsAreOld(q.high, loco);
      OwedNothing(Survivors(q.high, loco), tag, false);
      OwedOne(Entry(SPEED, packet, repeats, 0, tag), tag, false);
      OwedSum([Entry(SPEED, packet, repeats, 0, tag)], Survivors(q.high, loco), tag, false);
    case Accessory(packet, repeats, delay) =>
      OwedOne(Entry(ACC_ON, packet, repeats, delay % 0x1_0000, tag), tag, false);
      OwedSum(q.low, [Entry(ACC_ON, packet, repeats, delay % 0x1_0000, tag)], tag, false);
    case Next(_, _) =>
  }

  /** Main result: in any run, a request with r repeats has been transmitted r+1 times, no more and no
      less, as soon as none of its entries is left in the queues, unless a later one displaced it. */
  lemma SentExactly(ops: seq<Op>, op: Op, more: seq<Op>)
    requires forall k | 0 <= k < |ops| :: Fits(ops[k])
    requires Fits(op) && !op.Next? && (op.Function? ==> 1 <= op.group <= 5)
    requires var q := Run(EMPTY, ops);
      op.Speed? ==> var i := FindLoco(q.high, op.loco); i < |q.high| ==> !q.high[i].kind.ACC_OFF?
    requires var q := Run(EMPTY, ops);
      forall k | 0 <= k < |more| :: Fits(more[k]) && !Displaces(Run(Apply(q, op), more[..k]), more[k], q.next)
    ensures var q := Run(EMPTY, ops);
      var t := Run(Apply(q, op), more);
      Given(t.log, q.next, false) + Owed(t.high, q.next, false) + Owed(t.low, q.next, false) == Asked(op)
  {
    RunsStayFresh(ops);
    var q := Run(EMPTY, ops);
    StepKeepsFits(q, op);
    RequestIsOwed(q, op);
    RunsConserve(Apply(q, op), more, q.next, false);
  }

  /** How often the gate-off packet of an accessory request is asked for. */
  function AskedOff(repeats: nat, delay: int): nat {
    if delay % 0x1_0000 != 0 then 1 else repeats + 1
  }

  lemma AccessoryOwesOff(q: Queues, packet: seq<byte>, repeats: nat, delay: int)
    requires Fresh(q)
    ensures Total(ScheduleAccessory(q, packet, repeats, delay), q.next, true) == AskedOff(repeats, delay)
  {
    hide Owed, Given;
    var tag := q.next;
    var e := Entry(ACC_ON, packet, repeats, delay % 0x1_0000, tag);
    OwedNothing(q.high, tag, true);
    OwedNothing(q.low, tag, true);
    GivenNothing(q.log, tag, true);
    OwedOne(e, tag, true);
    OwedSum(q.low, [e], tag, true);
  }

  /** Main result: in any run, the gate-off packet of an accessory request has been sent once, or as often as
      the request itself if there is no delay, as soon as nothing of the request is left in the queues, unless
      a speed packet displaced it. */
  lemma OffSentExactly(ops: seq<Op>, packet: seq<byte>, repeats: nat, delay: int, more: seq<Op>)
    requires forall k | 0 <= k < |ops| :: Fits(ops[k])
    requires Fits(Accessory(packet, repeats, delay))
    requires var q := Run(EMPTY, ops);
      var op := Accessory(packet, repeats, delay);
      forall k | 0 <= k < |more| :: Fits(more[k]) && !Displaces(Run(Apply(q, op), more[..k]), more[k], q.next)
    ensures var q := Run(EMPTY, ops);
      var t := Run(ScheduleAccessory(q, packet, repeats, delay), more);
      Given(t.log, q.next, true) + Owed(t.high, q.next, true) + Owed(t.low, q.next, true) == AskedOff(repeats, delay)
  {
    hide Owed, Given, Displaces;
    RunsStayFresh(ops);
    var q, op := Run(EMPTY, ops), Accessory(packet, repeats, delay);
    StepKeepsFits(q, op);
    AccessoryOwesOff(q, packet, repeats, delay);
    RunsConserve(Apply(q, op), more, q.next, true);
  }

  // ---------- Accessories ----------

  /** When the last gate-on packet of a request went out. */
  function LastOn(log: seq<Sent>, tag: nat): int {
    if log == [] then -1
    else
      var s := log[|log| - 1];
      if s.tag == tag && !s.off then s.now else LastOn(log[..|log| - 1], tag)
  }

  /** The 32-bit time from which the gate-off packet of a request may go out. */
  function OffTime(log: seq<Sent>, tag: nat, delay: nat): int {
    (LastOn(log, tag) + delay) % 0x1_0000_0000
  }

  /** A transmission of an accessory request is its packet, or later the same with the gate bit cleared. */
  predicate GoodTransmission(log: seq<Sent>, k: nat, tag: nat, packet: seq<byte>, delay: nat)
    requires k < |log|
  {
    log[k].tag == tag ==>
      if log[k].off then log[k].packet == GateOff(packet) && log[k].now >= OffTime(log[..k], tag, delay)
      else log[k].packet == packet && forall j | 0 <= j < k :: log[j].tag == tag ==> !log[j].off
  }

  /** Where an accessory request stands: its on part is in the low queue, then its off part in the high. */
  ghost predicate Accessing(q: Queues, tag: nat, packet: seq<byte>, delay: nat) {
    && (forall i, j | 0 <= i < j < |q.low| :: !(q.low[i].tag == tag && q.low[j].tag == tag))
    && (forall i | 0 <= i < |q.low| && q.low[i].tag == tag ::
          && q.low[i].kind == ACC_ON && q.low[i].packet == packet && q.low[i].word == delay
          && (forall k | 0 <= k < |q.log| :: q.log[k].tag == tag ==> !q.log[k].off))
    && (forall i | 0 <= i < |q.high| && q.high[i].tag == tag ::
          && q.high[i].kind == ACC_OFF && q.high[i].packet == GateOff(packet)
          && q.high[i].word == OffTime(q.log, tag, delay)
          && (forall j | 0 <= j < |q.low| :: q.low[j].tag != tag))
    && (forall k | 0 <= k < |q.log| :: GoodTransmission(q.log, k, tag, packet, delay))
  }

  lemma {:induction false} LogGrows(log: seq<Sent>, s: Sent, tag: nat, packet: seq<byte>, delay: nat)
    requires forall k | 0 <= k < |log| :: GoodTransmission(log, k, tag, packet, delay)
    requires s.tag == tag ==> GoodTransmission(log + [s], |log|, tag, packet, delay)
    ensures forall k | 0 <= k < |log + [s]| :: GoodTransmission(log + [s], k, tag, packet, delay)
    ensures LastOn(log + [s], tag) == if s.tag == tag && !s.off then s.now else LastOn(log, tag)
  {
    assert (log + [s])[..|log|] == log;
    forall k | 0 <= k < |log|
      ensures GoodTransmission(log + [s], k, tag, packet, delay)
    {
      assert GoodTransmission(log, k, tag, packet, delay);
      assert (log + [s])[..k] == log[..k];
    }
  }

  lemma HighLogsWell(q: Queues, i: nat, now: nat, tag: nat, packet: seq<byte>, delay: nat)
    requires AllFit(q) && Accessing(q, tag, packet, delay)
    requires i < |q.high| && Sendable(q.high[i], now, q.last)
    ensures var log := SendHigh(q, i, now).log;
      && (forall k | 0 <= k < |log| :: GoodTransmission(log, k, tag, packet, delay))
      && OffTime(log, tag, delay) == OffTime(q.log, tag, delay)
      && log == q.log + [Transmission(q.high[i], now)]
  {
    var s := Transmission(q.high[i], now);
    assert (q.log + [s])[..|q.log|] == q.log;
    LogGrows(q.log, s, tag, packet, delay);
  }

  lemma HighKeepsAccessing(q: Queues, i: nat, now: nat, tag: nat, packet: seq<byte>, delay: nat)
    requires AllFit(q) && Coalesced(q) && delay < 0x1_0000 && Accessing(q, tag, packet, delay)
    requires i < |q.high| && Sendable(q.high[i], now, q.last)
    ensures Accessing(SendHigh(q, i, now), tag, packet, delay)
  {
    var t := SendHigh(q, i, now);
    HighLogsWell(q, i, now, tag, packet, delay);
    assert t.high == Drained(q.high, i);
    forall k | 0 <= k < |t.high| && t.high[k].tag == tag
      ensures t.high[k].kind == ACC_OFF && t.high[k].packet == GateOff(packet)
        && t.high[k].word == OffTime(t.log, tag, delay)
      ensures forall j | 0 <= j < |q.low| :: q.low[j].tag != tag
    {
      var at := DrainedIsOld(q.high, i, k);
    }
  }

  /** After a low entry has been sent, the low queue still holds the request at most once and only as it was. */
  lemma DrainedLowAccesses(q: Queues, j: nat, tag: nat, packet: seq<byte>, delay: nat)
    requires Accessing(q, tag, packet, delay) && j < |q.low|
    ensures var low := Drained(q.low, j);
      && (forall k, m | 0 <= k < m < |low| :: !(low[k].tag == tag && low[m].tag == tag))
      && (forall k | 0 <= k < |low| && low[k].tag == tag ::
            && low[k].kind == ACC_ON && low[k].packet == packet && low[k].word == delay
            && (exists m :: 0 <= m < |q.low| && q.low[m].tag == tag && (m == j ==> Stays(q.low[j]))))
  {
    var low := Drained(q.low, j);
    hide Drained, GoodTransmission, OffTime, GateOff;
    forall k, m | 0 <= k < m < |low|
      ensures !(low[k].tag == tag && low[m].tag == tag)
    {
      var a := DrainedIsOld(q.low, j, k);
      var b := DrainedIsOld(q.low, j, m);
    }
    forall k | 0 <= k < |low| && low[k].tag == tag
      ensures low[k].kind == ACC_ON && low[k].packet == packet && low[k].word == delay
      ensures exists m :: 0 <= m < |q.low| && q.low[m].tag == tag && (m == j ==> Stays(q.low[j]))
    {
      var a := DrainedIsOld(q.low, j, k);
    }
  }

  lemma LowKeepsAccessing(q: Queues, j: nat, now: nat, tag: nat, packet: seq<byte>, delay: nat)
    requires AllFit(q) && Coalesced(q) && delay < 0x1_0000 && Accessing(q, tag, packet, delay)
    requires j < |q.low|
    ensures Accessing(SendLow(q, j, now), tag, packet, delay)
  {
    LogGrows(q.log, Transmission(q.low[j], now), tag, packet, delay);
    DrainedLowAccesses(q, j, tag, packet, delay);
    hide GoodTransmission, LastOn, GateOff, Drained, Stays;
  }

  lemma NextKeepsAccessing(q: Queues, force: bool, now: nat, tag: nat, packet: seq<byte>, delay: nat)
    requires AllFit(q) && Coalesced(q) && delay < 0x1_0000 && Accessing(q, tag, packet, delay)
    ensures Accessing(ScheduleNext(q, force, now), tag, packet, delay)
  {
    var i := FindSendable(q.high, now, q.last);
    var j := FindSendable(q.low, now, q.last);
    if i < |q.high| {
      HighKeepsAccessing(q, i, now, tag, packet, delay);
    } else if j < |q.low| {
      LowKeepsAccessing(q, j, now, tag, packet, delay);
    } else if force {
      LogGrows(q.log, Sent(IDLE, 0, 0, -1, false, now), tag, packet, delay);
    }
  }

  lemma RequestKeepsAccessing(q: Queues, op: Op, tag: nat, packet: seq<byte>, delay: nat)
    requires !op.Next? && tag < q.next && Accessing(q, tag, packet, delay)
    ensures Accessing(Apply(q, op), tag, packet, delay)
  {
    hide GoodTransmission, OffTime, GateOff;
    if op.Estop? {
      var at := SurvivorsAreOld(q.high, op.loco);
      hide Survivors;
    }
  }

  /** Main result: in every run, an accessory request sends first its own packet and later, never before
      the delay after the last of those has elapsed, that packet with the gate bit cleared. */
  lemma {:induction false} RunsKeepAccessing(q: Queues, ops: seq<Op>, tag: nat, packet: seq<byte>, delay: nat)
    requires AllFit(q) && Coalesced(q) && tag < q.next && delay < 0x1_0000 && Accessing(q, tag, packet, delay)
    requires forall k | 0 <= k < |ops| :: Fits(ops[k]) && Typed(ops[k])
    ensures var t := Run(q, ops);
      AllFit(t) && Coalesced(t) && tag < t.next && Accessing(t, tag, packet, delay)
    decreases |ops|
  {
    if ops != [] {
      var n := |ops| - 1;
      RunsKeepAccessing(q, ops[..n], tag, packet, delay);
      var before, op := Run(q, ops[..n]), ops[n];
      StepKeepsFits(before, op);
      StepKeepsCoalesced(before, op);
      if op.Next? {
        NextKeepsAccessing(before, op.force, op.now, tag, packet, delay);
      } else {
        RequestKeepsAccessing(before, op, tag, packet, delay);
      }
    }
  }

  lemma AccessoryIsTimed(q: Queues, packet: seq<byte>, repeats: nat, delay: nat, ops: seq<Op>)
    requires Fresh(q) && AllFit(q) && Coalesced(q) && |packet| <= MAX_PACKET_SIZE && delay < 0x1_0000
    requires forall k | 0 <= k < |ops| :: Fits(ops[k]) && Typed(ops[k])
    ensures var log := Run(ScheduleAccessory(q, packet, repeats, delay), ops).log;
      forall k | 0 <= k < |log| :: GoodTransmission(log, k, q.next, packet, delay)
  {
    var s := ScheduleAccessory(q, packet, repeats, delay);
    RunsKeepAccessing(s, ops, q.next, packet, delay);
  }

  // ---------- Where the union bites ----------

  function OffEntries(q: seq<Entry>): seq<Entry> {
    if q == [] then []
    else (if q[0].kind.ACC_OFF? then [q[0]] else []) + OffEntries(q[1..])
  }

  lemma {:induction false} OffEntriesSum(a: seq<Entry>, b: seq<Entry>)
    ensures OffEntries(a + b) == OffEntries(a) + OffEntries(b)
    decreases |a|
  {
    if a == [] {
      assert a + b == b;
    } else {
      var first := if a[0].kind.ACC_OFF? then [a[0]] else [];
      assert (a + b)[0] == a[0] && (a + b)[1..] == a[1..] + b;
      OffEntriesSum(a[1..], b);
      assert first + (OffEntries(a[1..]) + OffEntries(b)) == first + OffEntries(a[1..]) + OffEntries(b);
    }
  }

  lemma OffEntriesParts(q: seq<Entry>, i: nat, e: Entry)
    requires i < |q|
    ensures OffEntries(q[i := e]) == OffEntries(q[..i]) + OffEntries([e]) + OffEntries(q[i + 1..])
  {
    hide OffEntries;
    assert q[i := e] == q[..i] + ([e] + q[i + 1..]);
    OffEntriesSum(q[..i], [e] + q[i + 1..]);
    OffEntriesSum([e], q[i + 1..]);
  }

  /** A speed packet leaves the waiting gate-off packets alone exactly if the first entry whose low 16
      bits equal its loco id, if there is one, is not itself a gate-off. */
  lemma SpeedSparesGateOff(q: Queues, packet: seq<byte>, repeats: nat, loco: nat)
    requires Fresh(q)
    ensures var i := FindLoco(q.high, loco);
      OffEntries(ScheduleSpeed(q, packet, repeats, loco).high) == OffEntries(q.high)
      <==> !(i < |q.high| && q.high[i].kind.ACC_OFF?)
  {
    var i := FindLoco(q.high, loco);
    if i < |q.high| {
      var was := q.high[i];
      var e := was.(packet := packet, repeats := repeats, tag := q.next);
      assert q.high[i := was] == q.high;
      OffEntriesParts(q.high, i, was);
      OffEntriesParts(q.high, i, e);
      assert OffEntries([e]) == if e.kind.ACC_OFF? then [e] else [];
      assert OffEntries([was]) == if was.kind.ACC_OFF? then [was] else [];
      if e.kind.ACC_OFF? {
        hide OffEntries;
        var n := |OffEntries(q.high[..i])|;
        assert OffEntries(q.high[i := e])[n] == e && OffEntries(q.high)[n] == was;
      }
    } else {
      OffEntriesSum(q.high, [Entry(SPEED, packet, repeats, loco, q.next)]);
    }
  }

  /** A turnout pulse of 100 ms whose on packet went out at time 3. */
  lemma PulseWaits() returns (q: Queues)
    ensures q == ScheduleNext(ScheduleAccessory(EMPTY, [0x81, 0xF9], 0, 100), false, 3)
    ensures q == Queues([Entry(ACC_OFF, [0x81, 0xF1], 0, 103, 0)], [], 100, 1,
      [Sent([0x81, 0xF9], 0, 100, 0, false, 3)])
  {
    var e := Entry(ACC_ON, [0x81, 0xF9], 0, 100, 0);
    var p := ScheduleAccessory(EMPTY, [0x81, 0xF9], 0, 100);
    assert p.low == [e] && p.high == [];
    assert FindSendable([e], 3, 0) == 0 && Without([e], 0) == [];
    assert Bit(0xF9, 3) && GateOff([0x81, 0xF9]) == [0x81, 0xF1];
    q := ScheduleNext(p, false, 3);
  }

  /** One of the inputs on which it does not: that turnout stays on if loco 103 gets a speed packet before
      the pulse is over. */
  lemma GateOffIsLost()
    ensures var on, speed := [0x81, 0xF9], [103, 0x3F, 0x90];
      var q := ScheduleNext(ScheduleAccessory(EMPTY, on, 0, 100), false, 3);
      var t := ScheduleNext(ScheduleSpeed(q, speed, 0, 103), false, 200);
      && t.high == [] && t.low == []
      && t.log == [Sent(on, 0, 100, 0, false, 3), Sent(speed, 0, 103, 1, true, 200)]
  {
    var q := PulseWaits();
    var s := ScheduleSpeed(q, [103, 0x3F, 0x90], 0, 103);
    assert s.high == [Entry(ACC_OFF, [103, 0x3F, 0x90], 0, 103, 1)];
  }

  // ---------- Draining ----------

  /** Forced dequeues at these times. */
  function NextAll(q: Queues, times: seq<nat>): Queues
    decreases |times|
  {
    if times == [] then q else NextAll(ScheduleNext(q, true, times[0]), times[1..])
  }

  /** Times at or after `since` in order. */
  ghost predicate Ascending(since: nat, times: seq<nat>)
    decreases |times|
  {
    times == [] || (since <= times[0] && Ascending(times[0], times[1..]))
  }

  /** A forced dequeue sends exactly one packet. */
  lemma NextLogs(q: Queues, now: nat)
    requires AllFit(q)
    ensures var t := ScheduleNext(q, true, now); q.log <= t.log && |t.log| == |q.log| + 1
  {
  }

  /** How many dequeues the entries of a queue may take, twice that for gate-on entries. */
  function Left(q: seq<Entry>): nat {
    if q == [] then 0 else LeftOf(q[0]) + Left(q[1..])
  }

  function LeftOf(e: Entry): nat {
    if e.kind.ACC_ON? then 2 * (e.repeats + 1) else e.repeats + 1
  }

  /** How many dequeues may still be needed: between two packets of one loco there may be an idle one. */
  function Needed(q: Queues): nat {
    2 * (Left(q.high) + Left(q.low)) + if q.last != 0 then 1 else 0
  }

  /** Is every waiting gate-off due? */
  predicate AllDue(q: Queues, now: nat) {
    && (forall i | 0 <= i < |q.high| && q.high[i].kind.ACC_OFF? :: q.high[i].word <= now)
    && (forall i | 0 <= i < |q.low| && q.low[i].kind.ACC_OFF? :: q.low[i].word <= now)
  }

  /** At how many of these times every waiting gate-off is due. */
  function Dues(q: Queues, times: seq<nat>): nat
    decreases |times|
  {
    if times == [] then 0
    else (if AllDue(q, times[0]) then 1 else 0) + Dues(ScheduleNext(q, true, times[0]), times[1..])
  }

  lemma {:induction false} LeftSum(a: seq<Entry>, b: seq<Entry>)
    ensures Left(a + b) == Left(a) + Left(b)
    decreases |a|
  {
    if a == [] {
      assert a + b == b;
    } else {
      assert (a + b)[1..] == a[1..] + b;
      LeftSum(a[1..], b);
    }
  }

  lemma LeftOne(e: Entry)
    ensures Left([e]) == LeftOf(e)
  {
  }

  lemma LeftParts(q: seq<Entry>, i: nat, e: Entry)
    requires i < |q|
    ensures Left(q) == Left(q[..i]) + LeftOf(q[i]) + Left(q[i + 1..])
    ensures Left(q[i := e]) == Left(q[..i]) + LeftOf(e) + Left(q[i + 1..])
    ensures Left(Without(q, i)) == Left(q[..i]) + Left(q[i + 1..])
  {
    hide Left, LeftOf;
    assert q == q[..i] + ([q[i]] + q[i + 1..]) && q[i := e] == q[..i] + ([e] + q[i + 1..]);
    LeftSum(q[..i], [q[i]] + q[i + 1..]);
    LeftSum([q[i]], q[i + 1..]);
    LeftSum(q[..i], [e] + q[i + 1..]);
    LeftSum([e], q[i + 1..]);
    LeftSum(q[..i], q[i + 1..]);
    LeftOne(e);
    LeftOne(q[i]);
  }

  lemma SendingNeedsLess(q: seq<Entry>, i: nat, now: nat)
    requires i < |q|
    ensures Left(Jumped(q[i], now)) + Left(Drained(q, i)) < Left(q)
  {
    assert Left([]) == 0;
    hide Left, Without;
    LeftParts(q, i, q[i].(repeats := if q[i].repeats > 0 then q[i].repeats - 1 else 0));
    LeftOne(OffEntry(q[i], now));
  }

  /** No dequeue makes more necessary, and one at which every gate-off is due makes less necessary unless there is
      nothing left to send. */
  lemma NextNeedsLess(q: Queues, now: nat)
    ensures Needed(ScheduleNext(q, true, now)) <= Needed(q)
    ensures AllDue(q, now) && (q.high != [] || q.low != []) ==> Needed(ScheduleNext(q, true, now)) < Needed(q)
  {
    hide Left, Drained, Jumped;
    var i, j := FindSendable(q.high, now, q.last), FindSendable(q.low, now, q.last);
    if i < |q.high| {
      SendingNeedsLess(q.high, i, now);
      LeftSum(Jumped(q.high[i], now), Drained(q.high, i));
    } else if j < |q.low| {
      SendingNeedsLess(q.low, j, now);
      LeftSum(Jumped(q.low[j], now), q.high);
    } else if AllDue(q, now) {
      assert q.high != [] ==> !Sendable(q.high[0], now, q.last);
      assert q.low != [] ==> !Sendable(q.low[0], now, q.last);
    }
  }

  lemma {:induction false} NothingToSend(q: Queues, times: seq<nat>)
    requires q.high == [] && q.low == []
    ensures NextAll(q, times).high == [] && NextAll(q, times).low == []
    decreases |times|
  {
    if times != [] {
      NothingToSend(ScheduleNext(q, true, times[0]), times[1..]);
    }
  }

  /** Main result: without new requests the queues drain.  Forced dequeues at any times leave nothing behind, if
      there are as many at which no gate-off has to wait as there are transmissions and pauses left. */
  lemma {:induction false} QueuesDrain(q: Queues, times: seq<nat>)
    requires Dues(q, times) >= Needed(q)
    ensures NextAll(q, times).high == [] && NextAll(q, times).low == []
    decreases |times|
  {
    if q.high == [] && q.low == [] {
      NothingToSend(q, times);
    } else {
      assert Needed(q) > 0;
      NextNeedsLess(q, times[0]);
      hide ScheduleNext, Left, AllDue;
      QueuesDrain(ScheduleNext(q, true, times[0]), times[1..]);
    }
  }

  lemma LaterThanAll(q: seq<Entry>, since: nat) returns (now: nat)
    ensures since <= now && forall i | 0 <= i < |q| :: q[i].word <= now
    decreases |q|
  {
    if q == [] {
      now := since;
    } else {
      now := LaterThanAll(q[1..], since);
      now := if now < q[0].word then q[0].word else now;
    }
  }

  lemma NotBefore(q: Queues, now: nat)
    requires forall i | 0 <= i < |q.high + q.low| :: (q.high + q.low)[i].word <= now
    ensures AllDue(q, now)
  {
    forall i | 0 <= i < |q.high| ensures q.high[i].word <= now {
      assert q.high[i] == (q.high + q.low)[i];
    }
    forall i | 0 <= i < |q.low| ensures q.low[i].word <= now {
      assert q.low[i] == (q.high + q.low)[|q.high| + i];
    }
  }

  /** There are such times from any moment on and in order. */
  lemma {:induction false} DuesAreReached(q: Queues, since: nat, n: nat) returns (times: seq<nat>)
    ensures Ascending(since, times) && |times| == n == Dues(q, times)
    decreases n
  {
    if n == 0 {
      times := [];
    } else {
      var now := LaterThanAll(q.high + q.low, since);
      NotBefore(q, now);
      var more := DuesAreReached(ScheduleNext(q, true, now), now, n - 1);
      times := [now] + more;
    }
  }

  lemma {:induction false} NextAllConserves(q: Queues, times: seq<nat>, tag: nat, off: bool)
    requires AllFit(q)
    ensures Total(NextAll(q, times), tag, off) == Total(q, tag, off)
    decreases |times|
  {
    if times != [] {
      hide ScheduleNext, Total, AllFit;
      NextConserves(q, true, times[0], tag, off);
      NextKeepsFits(q, true, times[0]);
      NextAllConserves(ScheduleNext(q, true, times[0]), times[1..], tag, off);
    }
  }

  /** What an undisplaced request asks for has been sent when the queues have drained. */
  lemma DrainedIsGiven(t: Queues, times: seq<nat>, tag: nat, off: bool)
    requires AllFit(t) && Dues(t, times) >= Needed(t)
    ensures Given(NextAll(t, times).log, tag, off) == Total(t, tag, off)
  {
    QueuesDrain(t, times);
    NextAllConserves(t, times, tag, off);
  }

  /** Main result: an undisplaced request with r repeats is in the end sent r + 1 times, no more and no less. */
  lemma SentInTheEnd(ops: seq<Op>, op: Op, more: seq<Op>, times: seq<nat>)
    requires forall k | 0 <= k < |ops| :: Fits(ops[k])
    requires Fits(op) && !op.Next? && (op.Function? ==> 1 <= op.group <= 5)
    requires var q := Run(EMPTY, ops);
      op.Speed? ==> var i := FindLoco(q.high, op.loco); i < |q.high| ==> !q.high[i].kind.ACC_OFF?
    requires var q := Run(EMPTY, ops);
      forall k | 0 <= k < |more| :: Fits(more[k]) && !Displaces(Run(Apply(q, op), more[..k]), more[k], q.next)
    requires var t := Run(Apply(Run(EMPTY, ops), op), more);
      Dues(t, times) >= Needed(t)
    ensures var q := Run(EMPTY, ops);
      Given(NextAll(Run(Apply(q, op), more), times).log, q.next, false) == Asked(op)
  {
    hide Dues, Needed, NextAll, Displaces, AllFit, Owed, Given, Fresh, Asked;
    SentExactly(ops, op, more);
    var q := Run(EMPTY, ops);
    RunsFit(Apply(q, op), more) by {
      RunsStayFresh(ops);
      StepKeepsFits(q, op);
    }
    DrainedIsGiven(Run(Apply(q, op), more), times, q.next, false);
  }

  /** And the gate-off packet of an undisplaced accessory request is in the end sent as often as it should. */
  lemma OffSentInTheEnd(ops: seq<Op>, packet: seq<byte>, repeats: nat, delay: int, more: seq<Op>, times: seq<nat>)
    requires forall k | 0 <= k < |ops| :: Fits(ops[k])
    requires Fits(Accessory(packet, repeats, delay))
    requires var q := Run(EMPTY, ops);
      var op := Accessory(packet, repeats, delay);
      forall k | 0 <= k < |more| :: Fits(more[k]) && !Displaces(Run(Apply(q, op), more[..k]), more[k], q.next)
    requires var t := Run(ScheduleAccessory(Run(EMPTY, ops), packet, repeats, delay), more);
      Dues(t, times) >= Needed(t)
    ensures var q := Run(EMPTY, ops);
      Given(NextAll(Run(ScheduleAccessory(q, packet, repeats, delay), more), times).log, q.next, true)
      == AskedOff(repeats, delay)
  {
    hide Dues, Needed, NextAll, Displaces, AllFit, Owed, Given, Fresh, AskedOff;
    OffSentExactly(ops, packet, repeats, delay, more);
    var q, op := Run(EMPTY, ops), Accessory(packet, repeats, delay);
    RunsFit(Apply(q, op), more) by {
      RunsStayFresh(ops);
      StepKeepsFits(q, op);
    }
    DrainedIsGiven(Run(Apply(q, op), more), times, q.next, true);
  }

  lemma {:induction false} RunsFit(q: Queues, ops: seq<Op>)
    requires AllFit(q) && forall k | 0 <= k < |ops| :: Fits(ops[k])
    ensures AllFit(Run(q, ops))
    decreases |ops|
  {
    if ops != [] {
      RunsFit(q, ops[..|ops| - 1]);
      StepKeepsFits(Run(q, ops[..|ops| - 1]), ops[|ops| - 1]);
    }
  }

  // ---------- What a request sends ----------

  /** Whatever carries the tag of a request carries its packet, or, if it is for an accessory, the gate-off of
      that. */
  ghost predicate Bears(q: Queues, tag: nat, packet: seq<byte>, accessory: bool) {
    && (forall i | 0 <= i < |q.high| && q.high[i].tag == tag ::
          BearsIt(q.high[i].packet, q.high[i].kind.ACC_OFF?, packet, accessory)
          && (q.high[i].kind.ACC_ON? ==> accessory))
    && (forall i | 0 <= i < |q.low| && q.low[i].tag == tag ::
          BearsIt(q.low[i].packet, q.low[i].kind.ACC_OFF?, packet, accessory)
          && (q.low[i].kind.ACC_ON? ==> accessory))
    && (forall k | 0 <= k < |q.log| && q.log[k].tag == tag ::
          BearsIt(q.log[k].packet, q.log[k].off, packet, accessory))
  }

  predicate BearsIt(carried: seq<byte>, off: bool, packet: seq<byte>, accessory: bool) {
    carried == if off && accessory then GateOff(packet) else packet
  }

  lemma HighBears(q: Queues, i: nat, now: nat, tag: nat, packet: seq<byte>, accessory: bool)
    requires Bears(q, tag, packet, accessory) && i < |q.high|
    ensures Bears(SendHigh(q, i, now), tag, packet, accessory)
  {
    hide GateOff, Stays;
  }

  lemma LowBears(q: Queues, j: nat, now: nat, tag: nat, packet: seq<byte>, accessory: bool)
    requires Bears(q, tag, packet, accessory) && j < |q.low|
    ensures Bears(SendLow(q, j, now), tag, packet, accessory)
  {
    hide GateOff, Stays;
  }

  lemma StepBears(q: Queues, op: Op, tag: nat, packet: seq<byte>, accessory: bool)
    requires tag < q.next && Bears(q, tag, packet, accessory)
    ensures Bears(Apply(q, op), tag, packet, accessory) && q.next <= Apply(q, op).next
  {
    if op.Next? {
      var i, j := FindSendable(q.high, op.now, q.last), FindSendable(q.low, op.now, q.last);
      if i < |q.high| {
        HighBears(q, i, op.now, tag, packet, accessory);
      } else if j < |q.low| {
        LowBears(q, j, op.now, tag, packet, accessory);
      }
      hide GateOff, SendHigh, SendLow;
    } else if op.Estop? {
      var at := SurvivorsAreOld(q.high, op.loco);
      hide GateOff, Survivors;
    } else {
      hide GateOff;
    }
  }

  lemma {:induction false} RunBears(q: Queues, ops: seq<Op>, tag: nat, packet: seq<byte>, accessory: bool)
    requires tag < q.next && Bears(q, tag, packet, accessory)
    ensures Bears(Run(q, ops), tag, packet, accessory) && q.next <= Run(q, ops).next
    decreases |ops|
  {
    if ops != [] {
      hide Bears, Apply;
      RunBears(q, ops[..|ops| - 1], tag, packet, accessory);
      StepBears(Run(q, ops[..|ops| - 1]), ops[|ops| - 1], tag, packet, accessory);
    }
  }

  /** Main result: over every run, each transmission of a request, of whatever kind, carries exactly the packet
      that was asked for; only for accessories there is another one, with the gate bit cleared. */
  lemma SentIsAsked(q: Queues, op: Op, more: seq<Op>)
    requires Fresh(q) && Coalesced(q) && !op.Next? && (op.Function? ==> 1 <= op.group <= 5)
    ensures var log := Run(Apply(q, op), more).log;
      forall k | 0 <= k < |log| && log[k].tag == q.next ::
        log[k].packet == if log[k].off && op.Accessory? then GateOff(op.packet) else op.packet
  {
    RequestBears(q, op);
    RunBears(Apply(q, op), more, q.next, op.packet, op.Accessory?);
  }

  lemma RequestBears(q: Queues, op: Op)
    requires Fresh(q) && Coalesced(q) && !op.Next? && (op.Function? ==> 1 <= op.group <= 5)
    ensures Bears(Apply(q, op), q.next, op.packet, op.Accessory?) && Apply(q, op).next == q.next + 1
  {
    hide GateOff;
    if op.Estop? {
      var at := SurvivorsAreOld(q.high, op.loco);
      hide Survivors;
    }
  }

  // ---------- What goes first ----------

  /** May not go yet: a gate-off that is not due, or the packet of a loco that has just had one. */
  predicate HasToWait(e: Entry, now: nat, last: nat) {
    (e.kind.ACC_OFF? && now < e.word) || (e.LocoId() != 0 && e.LocoId() == last)
  }

  /** Entry `i` is the first of a queue that does not have to wait. */
  ghost predicate First(q: seq<Entry>, i: int, now: nat, last: nat) {
    0 <= i < |q| && !HasToWait(q[i], now, last) && forall k | 0 <= k < i :: HasToWait(q[k], now, last)
  }

  ghost predicate AllWait(q: seq<Entry>, now: nat, last: nat) {
    forall k | 0 <= k < |q| :: HasToWait(q[k], now, last)
  }

  /** This entry has gone: its packet, once if it is for a loco and else for all its repeats. */
  ghost predicate Went(q: Queues, t: Queues, e: Entry, now: nat) {
    t.last == e.LocoId() && t.log == q.log
      + [Sent(e.packet, if e.LocoId() != 0 then 0 else e.repeats, e.LocoId(), e.tag, e.kind.ACC_OFF?, now)]
  }

  lemma FirstIsFound(q: seq<Entry>, i: nat, now: nat, last: nat)
    requires First(q, i, now, last)
    ensures FindSendable(q, now, last) == i
  {
    var k := FindSendable(q, now, last);
    assert Sendable(q[i], now, last);
    assert k < i ==> HasToWait(q[k], now, last);
  }

  lemma NoneIsFound(q: seq<Entry>, now: nat, last: nat)
    requires AllWait(q, now, last)
    ensures FindSendable(q, now, last) == |q|
  {
    forall k | 0 <= k < |q| ensures !Sendable(q[k], now, last) {
      assert HasToWait(q[k], now, last);
    }
  }

  /** Main result: a dequeue sends the first entry that does not have to wait, those of the high queue before all
      others. If all have to wait it sends an idle packet if it has to send something, and otherwise nothing. */
  lemma NextIsFirst(q: Queues, force: bool, now: nat)
    requires AllFit(q)
    ensures var t := ScheduleNext(q, force, now);
      && (forall i | First(q.high, i, now, q.last) :: Went(q, t, q.high[i], now))
      && (AllWait(q.high, now, q.last) ==> forall j | First(q.low, j, now, q.last) :: Went(q, t, q.low[j], now))
      && (AllWait(q.high, now, q.last) && AllWait(q.low, now, q.last) ==>
            t == if force then q.(last := 0, log := q.log + [Sent([0xFF, 0x00], 0, 0, -1, false, now)]) else q)
  {
    forall i | First(q.high, i, now, q.last) ensures Went(q, ScheduleNext(q, force, now), q.high[i], now) {
      FirstIsFound(q.high, i, now, q.last);
    }
    forall j | AllWait(q.high, now, q.last) && First(q.low, j, now, q.last)
      ensures Went(q, ScheduleNext(q, force, now), q.low[j], now)
    {
      NoneIsFound(q.high, now, q.last);
      FirstIsFound(q.low, j, now, q.last);
    }
    if AllWait(q.high, now, q.last) && AllWait(q.low, now, q.last) {
      NoneIsFound(q.high, now, q.last);
      NoneIsFound(q.low, now, q.last);
    }
  }

  /** The gate-off of a pulse goes out at the next dequeue if the delay is over by then; except that after an on
      packet at a time divisible by 65536 its slot looks like that of the same loco, and another packet comes in
      between. */
  lemma PulseEnds(q: Queues, j: nat, now: nat, force: bool, later: nat)
    requires AllFit(q) && j < |q.low| && q.low[j].kind.ACC_ON? && (q.low[j].LocoId() == 0 || q.low[j].repeats == 0)
    ensures var e, u := q.low[j], SendLow(q, j, now);
      && u.high != [] && u.high[0].kind.ACC_OFF? && u.high[0].tag == e.tag && u.high[0].packet == GateOff(e.packet)
      && (later >= now + e.LocoId() && (e.LocoId() != 0 ==> now % 0x1_0000 != 0) ==>
            Went(u, ScheduleNext(u, force, later), u.high[0], later))
  {
    WordIsSoon(now, q.low[j].LocoId());
    var u := SendLow(q, j, now);
    assert u.high[0] == OffEntry(q.low[j], now) && u.last == q.low[j].LocoId();
    hide SendLow, GateOff;
    if later >= now + q.low[j].LocoId() && (q.low[j].LocoId() != 0 ==> now % 0x1_0000 != 0) {
      FirstIsFound(u.high, 0, later, u.last);
      hide Drained;
    }
  }

  lemma WordIsSoon(now: nat, delay: nat)
    requires delay < 0x1_0000
    ensures (now + delay) % 0x1_0000_0000 <= now + delay
    ensures (now + delay) % 0x1_0000_0000 % 0x1_0000 == delay <==> now % 0x1_0000 == 0
  {
    assert (now + delay) % 0x1_0000_0000 % 0x1_0000 == (now + delay) % 0x1_0000 by { LowOfLow(now + delay); }
  }

  lemma LowOfLow(v: nat)
    ensures v % 0x1_0000_0000 % 0x1_0000 == v % 0x1_0000
  {
    var q, r := v / 0x1_0000_0000, v % 0x1_0000_0000;
    assert v == 0x1_0000 * (0x1_0000 * q + r / 0x1_0000) + r % 0x1_0000;
    ModIs(v, 0x1_0000, 0x1_0000 * q + r / 0x1_0000, r % 0x1_0000);
  }

  // ---------- Older packets ----------

  /** Every entry is of a request of its own. */
  ghost predicate Apart(q: Queues) {
    && (forall i, j | 0 <= i < j < |q.high| :: q.high[i].tag != q.high[j].tag)
    && (forall i, j | 0 <= i < j < |q.low| :: q.low[i].tag != q.low[j].tag)
    && (forall i, j | 0 <= i < |q.high| && 0 <= j < |q.low| :: q.high[i].tag != q.low[j].tag)
  }

  lemma HighKeepsApart(q: Queues, i: nat, now: nat)
    requires Apart(q) && i < |q.high|
    ensures Apart(SendHigh(q, i, now))
  {
    var t := SendHigh(q, i, now);
    var n := |Jumped(q.high[i], now)|;
    forall k, m | 0 <= k < m < |t.high| ensures t.high[k].tag != t.high[m].tag {
      var b := DrainedIsOld(q.high, i, m - n);
      if k >= n {
        var a := DrainedIsOld(q.high, i, k - n);
      }
    }
    forall k, m | 0 <= k < |t.high| && 0 <= m < |t.low| ensures t.high[k].tag != t.low[m].tag {
      if k >= n {
        var a := DrainedIsOld(q.high, i, k - n);
      }
    }
  }

  lemma LowKeepsApart(q: Queues, j: nat, now: nat)
    requires Apart(q) && j < |q.low|
    ensures Apart(SendLow(q, j, now))
  {
    hide Transmission, Logged;
  }

  lemma StepKeepsApart(q: Queues, op: Op)
    requires Fresh(q) && Apart(q)
    ensures Apart(Apply(q, op))
  {
    if op.Next? {
      hide Apart, Fresh;
      NextKeepsApart(q, op.force, op.now);
    } else if op.Estop? {
      var at := SurvivorsAreOld(q.high, op.loco);
      hide Survivors;
    } else {
      hide ScheduleNext;
    }
  }

  lemma NextKeepsApart(q: Queues, force: bool, now: nat)
    requires Apart(q)
    ensures Apart(ScheduleNext(q, force, now))
  {
    hide SendHigh, SendLow;
    var i, j := FindSendable(q.high, now, q.last), FindSendable(q.low, now, q.last);
    if i < |q.high| {
      HighKeepsApart(q, i, now);
    } else if j < |q.low| {
      LowKeepsApart(q, j, now);
    }
  }

  lemma {:induction false} RunsStayApart(ops: seq<Op>)
    requires forall k | 0 <= k < |ops| :: Fits(ops[k])
    ensures Apart(Run(EMPTY, ops))
    decreases |ops|
  {
    if ops != [] {
      hide Apart, Apply;
      RunsStayApart(ops[..|ops| - 1]);
      RunsStayFresh(ops[..|ops| - 1]);
      StepKeepsApart(Run(EMPTY, ops[..|ops| - 1]), ops[|ops| - 1]);
    } else {
      assert Apart(EMPTY);
    }
  }

  /** Nothing of this request is left in the queues. */
  ghost predicate Gone(q: Queues, tag: nat) {
    && tag < q.next
    && (forall i | 0 <= i < |q.high| :: q.high[i].tag != tag)
    && (forall i | 0 <= i < |q.low| :: q.low[i].tag != tag)
  }

  /** No transmission of it from `n` on. */
  ghost predicate Silent(log: seq<Sent>, n: nat, tag: nat) {
    n <= |log| && forall k | n <= k < |log| :: log[k].tag != tag
  }

  lemma StepStaysGone(q: Queues, op: Op, n: nat, tag: nat)
    requires Gone(q, tag) && Silent(q.log, n, tag)
    ensures Gone(Apply(q, op), tag) && Silent(Apply(q, op).log, n, tag)
  {
    if op.Estop? {
      var at := SurvivorsAreOld(q.high, op.loco);
      hide Survivors;
    } else if op.Next? {
      NextStaysGone(q, op.force, op.now, n, tag);
    }
  }

  lemma NextStaysGone(q: Queues, force: bool, now: nat, n: nat, tag: nat)
    requires Gone(q, tag) && Silent(q.log, n, tag)
    ensures var t := ScheduleNext(q, force, now); Gone(t, tag) && Silent(t.log, n, tag)
  {
    hide Sendable, GateOff, Stays;
  }

  lemma {:induction false} GoneIsNotSent(q: Queues, ops: seq<Op>, n: nat, tag: nat)
    requires Gone(q, tag) && Silent(q.log, n, tag)
    ensures Gone(Run(q, ops), tag) && Silent(Run(q, ops).log, n, tag)
    decreases |ops|
  {
    if ops != [] {
      hide Gone, Silent, Apply;
      GoneIsNotSent(q, ops[..|ops| - 1], n, tag);
      StepStaysGone(Run(q, ops[..|ops| - 1]), ops[|ops| - 1], n, tag);
    }
  }

  /** What is left in the queues is sent in the end. */
  lemma LeftIsSent(q: Queues, e: Entry, n: nat, since: nat) returns (times: seq<nat>, k: nat)
    requires AllFit(q) && e in q.high && n == |q.log|
    ensures Ascending(since, times) && n <= k < |NextAll(q, times).log| && NextAll(q, times).log[k].tag == e.tag
  {
    hide Dues, Needed, NextAll, Owed, Given, Ascending;
    var off := e.kind.ACC_OFF?;
    times := DuesAreReached(q, since, Needed(q));
    DrainedIsGiven(q, times, e.tag, off);
    OwedOfOne(q.high, e, off);
    LogsGrow(q, times);
    k := GivenSince(q.log, NextAll(q, times).log, e.tag, off);
  }

  lemma {:induction false} OwedOfOne(q: seq<Entry>, e: Entry, off: bool)
    requires e in q && off == e.kind.ACC_OFF?
    ensures Owed(q, e.tag, off) > 0
    decreases |q|
  {
    if e != q[0] {
      OwedOfOne(q[1..], e, off);
    }
  }

  lemma {:induction false} LogsGrow(q: Queues, times: seq<nat>)
    ensures q.log <= NextAll(q, times).log
    decreases |times|
  {
    if times != [] {
      LogsGrow(ScheduleNext(q, true, times[0]), times[1..]);
    }
  }

  lemma {:induction false} GivenSince(was: seq<Sent>, log: seq<Sent>, tag: nat, off: bool) returns (k: nat)
    requires was <= log && Given(log, tag, off) > Given(was, tag, off)
    ensures |was| <= k < |log| && log[k].tag == tag
    decreases |log|
  {
    assert log[..|was|] == was;
    assert |log| == |was| ==> log == was;
    k := |log| - 1;
    if log[k].tag != tag {
      assert was <= log[..k];
      k := GivenSince(was, log[..k], tag, off);
    }
  }

  lemma ReplacedIsGone(q: Queues, packet: seq<byte>, repeats: nat, loco: nat)
    requires Fresh(q) && Apart(q) && FindLoco(q.high, loco) < |q.high|
    ensures Gone(ScheduleSpeed(q, packet, repeats, loco), q.high[FindLoco(q.high, loco)].tag)
  {
  }

  /** Main result: once a new speed is requested for a loco, an older speed packet of it that still waits is never
      sent again, whatever follows; unless the entry that the request found and overwrote is a waiting gate-off.
      Then the older packet can be sent after the new one. */
  lemma OlderSpeedIsSent(ops: seq<Op>, packet: seq<byte>, repeats: nat, loco: nat, e: Entry, since: nat)
    requires (forall k | 0 <= k < |ops| :: Fits(ops[k]) && Typed(ops[k])) && |packet| <= MAX_PACKET_SIZE
    requires 0 < loco < 0x1_0000 && e in Run(EMPTY, ops).high && e.kind.SPEED? && e.LocoId() == loco
    ensures var q := Run(EMPTY, ops);
      var s, i := ScheduleSpeed(q, packet, repeats, loco), FindLoco(q.high, loco);
      i < |q.high| &&
      if q.high[i].kind.ACC_OFF? then
        exists times :: Ascending(since, times) && !Silent(NextAll(s, times).log, |q.log|, e.tag)
      else forall more :: Silent(Run(s, more).log, |q.log|, e.tag)
  {
    var q := Run(EMPTY, ops);
    var s, i := ScheduleSpeed(q, packet, repeats, loco), FindLoco(q.high, loco);
    RunsStayCoalesced(ops);
    RunsStayFresh(ops);
    RunsStayApart(ops);
    var j :| 0 <= j < |q.high| && q.high[j] == e;
    if q.high[i].kind.ACC_OFF? {
      assert s.high[j] == e && i != j;
      StepKeepsFits(q, Speed(packet, repeats, loco));
      hide Run, ScheduleSpeed, Coalesced, Fresh, Apart, AllFit, NextAll;
      var times, k := LeftIsSent(s, e, |q.log|, since);
    } else {
      assert i == j;
      ReplacedIsGone(q, packet, repeats, loco);
      hide Coalesced, Fresh, Apart, Gone, Run;
      assert Silent(s.log, |q.log|, e.tag);
      forall more ensures Silent(Run(s, more).log, |q.log|, e.tag) {
        GoneIsNotSent(s, more, |q.log|, e.tag);
      }
    }
  }

  /** An input: loco 103 is driven twice, a turnout is pulsed in between, and the third speed finds the gate-off.  The
      second speed is sent last. */
  lemma OlderSpeedComesLast()
    ensures var a, b, c := [103, 0x3F, 0x90], [103, 0x3F, 0xA0], [103, 0x3F, 0xB0];
      var q1 := ScheduleNext(ScheduleSpeed(EMPTY, a, 0, 103), true, 1);
      var q3 := ScheduleNext(ScheduleAccessory(ScheduleSpeed(q1, b, 0, 103), [0x81, 0xF9], 0, 100), true, 3);
      var s := ScheduleSpeed(q3, c, 0, 103);
      var t := ScheduleNext(ScheduleNext(ScheduleNext(s, true, 200), true, 201), true, 202);
      && t.high == [] && t.low == [] && |t.log| == 5
      && t.log[2].packet == c && t.log[3].packet == IDLE && t.log[4].packet == b
  {
    hide ScheduleNext, GateOff;
    var a, b, c := [103, 0x3F, 0x90], [103, 0x3F, 0xA0], [103, 0x3F, 0xB0];
    var q0 := ScheduleSpeed(EMPTY, a, 0, 103);
    assert q0.high == [Entry(SPEED, a, 0, 103, 0)];
    HeadGoes(q0, 1);
    var q1 := ScheduleNext(q0, true, 1);
    assert q1.high == [] && q1.low == [] && q1.last == 103 && |q1.log| == 1;
    var q2 := ScheduleAccessory(ScheduleSpeed(q1, b, 0, 103), [0x81, 0xF9], 0, 100);
    PulseComesFirst(q2, Entry(SPEED, b, 0, 103, q1.next));
    var q3 := ScheduleNext(q2, true, 3);
    TakesPulse(q3, c);
    hide ScheduleSpeed;
    SpeedsGo(ScheduleSpeed(q3, c, 0, 103), b, c);
  }

  lemma HeadGoes(q: Queues, now: nat)
    requires q.high != [] && Sendable(q.high[0], now, q.last) && !Stays(q.high[0]) && q.high[0].kind != ACC_ON
    requires |q.high[0].packet| <= MAX_PACKET_SIZE
    ensures ScheduleNext(q, true, now) ==
      q.(high := q.high[1..], last := q.high[0].LocoId(), log := q.log + [Transmission(q.high[0], now)])
  {
    assert Without(q.high, 0) == q.high[1..];
  }

  lemma PulseComesFirst(q: Queues, waiting: Entry)
    requires q.high == [waiting] && q.low == [Entry(ACC_ON, [0x81, 0xF9], 0, 100, 2)] && q.last == 103
    requires waiting.kind == SPEED && waiting.word == 103
    ensures var t := ScheduleNext(q, true, 3);
      && |t.log| == |q.log| + 1 && t.last == 100 && t.next == q.next
      && t.high == [Entry(ACC_OFF, [0x81, 0xF1], 0, 103, 2), waiting] && t.low == []
  {
    assert Bit(0xF9, 3) && GateOff([0x81, 0xF9]) == [0x81, 0xF1];
    assert FindSendable(q.high, 3, 103) == 1 && FindSendable(q.low, 3, 103) == 0;
    assert Without(q.low, 0) == [];
  }

  lemma TakesPulse(q: Queues, c: seq<byte>)
    requires |q.high| == 2 && q.high[0].word == 103
    ensures ScheduleSpeed(q, c, 0, 103)
      == q.(high := [q.high[0].(packet := c, repeats := 0, tag := q.next), q.high[1]], next := q.next + 1)
  {
    assert FindLoco(q.high, 103) == 0;
  }

  lemma SpeedsGo(s: Queues, b: seq<byte>, c: seq<byte>)
    requires |s.high| == 2 && s.low == [] && |b| <= MAX_PACKET_SIZE && |c| <= MAX_PACKET_SIZE && s.last != 103
    requires s.high[0].kind == ACC_OFF && s.high[0].word == 103 && s.high[0].packet == c && s.high[0].repeats == 0
    requires s.high[1].kind == SPEED && s.high[1].word == 103 && s.high[1].packet == b && s.high[1].repeats == 0
    ensures var t := ScheduleNext(ScheduleNext(ScheduleNext(s, true, 200), true, 201), true, 202);
      && t.high == [] && t.low == [] && |t.log| == |s.log| + 3
      && t.log[|s.log|].packet == c && t.log[|s.log| + 1].packet == IDLE && t.log[|s.log| + 2].packet == b
  {
    hide ScheduleNext;
    HeadGoes(s, 200);
    var t1 := ScheduleNext(s, true, 200);
    IdleGoes(t1, 201);
    HeadGoes(ScheduleNext(t1, true, 201), 202);
  }

  lemma IdleGoes(q: Queues, now: nat)
    requires |q.high| == 1 && q.low == [] && q.last != 0 && q.high[0].LocoId() == q.last
    ensures ScheduleNext(q, true, now) == q.(last := 0, log := q.log + [Sent(IDLE, 0, 0, -1, false, now)])
  {
  }

  /** A function request replaces the older one of its loco and group in every case. */
  lemma OlderFunctionIsGone(ops: seq<Op>, packet: seq<byte>, loco: nat, group: nat, e: Entry, more: seq<Op>)
    requires forall k | 0 <= k < |ops| :: Fits(ops[k]) && Typed(ops[k])
    requires 1 <= group <= 5 && e in Run(EMPTY, ops).low && e.kind == FUNCTION(group) && e.LocoId() == loco
    ensures var q := Run(EMPTY, ops); Silent(Run(ScheduleFunction(q, packet, loco, group), more).log, |q.log|, e.tag)
  {
    var q := Run(EMPTY, ops);
    RunsStayCoalesced(ops);
    RunsStayFresh(ops);
    RunsStayApart(ops);
    var j :| 0 <= j < |q.low| && q.low[j] == e;
    assert FindFunction(q.low, loco, group) == j;
    hide Run;
    GoneIsNotSent(ScheduleFunction(q, packet, loco, group), more, |q.log|, e.tag);
  }

  /** An emergency stop of a loco, or of all, discards the waiting speed packets of that loco, or of all, and nothing
      else; what it discards is never sent. */
  lemma StopDiscards(q: Queues, packet: seq<byte>, repeats: nat, loco: nat, e: Entry, more: seq<Op>)
    requires Fresh(q) && Apart(q) && e in q.high
    ensures var t := ScheduleEstop(q, packet, repeats, loco);
      e in t.high <==> e.kind.ACC_OFF? || (loco != 0 && e.LocoId() != loco)
    ensures var t := ScheduleEstop(q, packet, repeats, loco);
      e !in t.high ==> Silent(Run(t, more).log, |q.log|, e.tag)
  {
    SurvivorsAre(q.high, loco, e);
    var at := SurvivorsAreOld(q.high, loco);
    var t := ScheduleEstop(q, packet, repeats, loco);
    if e !in t.high {
      var j :| 0 <= j < |q.high| && q.high[j] == e;
      forall i | 0 <= i < |t.high| ensures t.high[i].tag != e.tag {
        if i > 0 {
          assert t.high[i] == q.high[at[i - 1]] && at[i - 1] != j;
        }
      }
      hide Run, Survivors;
      GoneIsNotSent(t, more, |q.log|, e.tag);
    }
  }
}

/** RingStream.cpp: framed messages in a ring of bytes, on a processor with 32-bit pointers, where the
    ring holds no flash inserts. */
module RingBuffer {
  import opened Bytes

  const FLASH_INSERT_MARKER: byte := 0xFF
  const NO_CLIENT: byte := 255

  datatype Message = Message(client: byte, bytes: seq<byte>)

  /** Client, length in two bytes, and the bytes. */
  function Frame(m: Message): seq<byte> {
    [m.client, HighByte(|m.bytes|), LowByte(|m.bytes|)] + m.bytes
  }

  /** `high<<8 | low` */
  function Word(high: byte, low: byte): nat {
    var h: int := high;
    256 * h + low
  }

  function Wrap(p: nat, len: nat): nat
    requires p < 2 * len
  {
    if p >= len then p - len else p
  }

  /** The cells from `start` on, round the end, hold these bytes. */
  predicate Holds(cells: seq<byte>, start: nat, bytes: seq<byte>) {
    && start < |cells| && |bytes| <= |cells|
    && forall i | 0 <= i < |bytes| :: cells[Wrap(start + i, |cells|)] == bytes[i]
  }

  lemma PutHolds(cells: seq<byte>, start: nat, bytes: seq<byte>, b: byte)
    requires Holds(cells, start, bytes) && |bytes| < |cells|
    ensures Holds(cells[Wrap(start + |bytes|, |cells|) := b], start, bytes + [b])
  {
  }

  lemma PrefixHolds(cells: seq<byte>, start: nat, bytes: seq<byte>, more: seq<byte>)
    requires Holds(cells, start, bytes + more)
    ensures Holds(cells, start, bytes)
  {
    assert forall i | 0 <= i < |bytes| :: bytes[i] == (bytes + more)[i];
  }

  lemma TakeHolds(cells: seq<byte>, start: nat, bytes: seq<byte>)
    requires Holds(cells, start, bytes) && bytes != []
    ensures cells[start] == bytes[0] && Holds(cells, Wrap(start + 1, |cells|), bytes[1..])
  {
    var next := Wrap(start + 1, |cells|);
    forall i | 0 <= i < |bytes| - 1
      ensures cells[Wrap(next + i, |cells|)] == bytes[1..][i]
    {
      assert Wrap(next + i, |cells|) == Wrap(start + (i + 1), |cells|);
    }
  }

  lemma PatchHolds(cells: seq<byte>, start: nat, bytes: seq<byte>, i: nat, b: byte)
    requires Holds(cells, start, bytes) && i < |bytes|
    ensures Holds(cells[Wrap(start + i, |cells|) := b], start, bytes[i := b])
  {
  }

  class RingStream {
    const len: nat
    const buffer: array<byte>
    var posWrite: nat
    var posRead: nat
    var overflow: bool
    var mark: nat
    var count: nat
    var ringClient: byte
    ghost var contents: seq<byte>      // committed and not yet read
    ghost var marked: bool             // in a transaction
    ghost var draft: seq<byte>         // all that was written in it, its header included

    /** The committed bytes are in the ring, and the draft behind them unless there was no room for it. */
    ghost predicate Sound()
      reads this, buffer
    {
      && len == buffer.Length && 0 < len < 0x1_0000 && posRead < len && posWrite < len
      && |contents| < len && Holds(buffer[..], posRead, contents)
      && overflow == (|contents| + |draft| >= len)
      && (!overflow ==>
            posWrite == Wrap(posRead + |contents| + |draft|, len) && Holds(buffer[..], posRead, contents + draft))
    }

    ghost predicate Valid()
      reads this, buffer
    {
      && Sound()
      && (if marked then
            && |draft| >= 3 && draft[..3] == [ringClient, 0, 0]
            && mark == Wrap(posRead + |contents|, len) && (!overflow ==> count == |draft| - 3)
          else draft == [])
    }

    constructor (len: nat)
      requires 0 < len < 0x1_0000
      ensures Valid() && this.len == len && fresh(buffer) && !marked && contents == []
    {
      this.len := len;
      buffer := new byte[len](_ => 0);
      posWrite, posRead, overflow, mark, count := 0, 0, false, 0, 0;
      ringClient := NO_CLIENT;
      contents, marked, draft := [], false, [];
    }

    /** RingStream::write, as one more byte of the draft. */
    method Append(b: byte) returns (r: nat)
      requires Sound()
      modifies this`posWrite, this`overflow, this`count, this`draft, buffer
      ensures Sound() && draft == old(draft) + [b]
      ensures r == (if overflow then 0 else 1) && count == old(count) + r
    {
      hide Holds;
      ghost var all := contents + draft;
      draft := draft + [b];
      if overflow { return 0; }
      assert contents + draft == all + [b];
      PutHolds(buffer[..], posRead, all, b);
      PrefixHolds(buffer[..][posWrite := b], posRead, contents, draft);
      buffer[posWrite] := b;
      posWrite := posWrite + 1;
      if posWrite == len { posWrite := 0; }
      if posWrite == posRead {
        overflow := true;
        return 0;
      }
      count := count + 1;
      return 1;
    }

    method Write(b: byte) returns (r: nat)
      requires Valid() && marked
      modifies this`posWrite, this`overflow, this`count, this`draft, buffer
      ensures Valid() && draft == old(draft) + [b]
      ensures r == if |contents| + |draft| < len then 1 else 0
    {
      hide Holds;
      r := Append(b);
    }

    method Mark(client: byte)
      requires Valid() && !marked
      modifies this`posWrite, this`overflow, this`count, this`draft, this`marked, this`mark, this`ringClient, buffer
      ensures Valid() && marked && ringClient == client && draft == [client, 0, 0]
    {
      hide Holds;
      ringClient := client;
      mark := posWrite;
      var r := Append(client);
      r := Append(0);
      r := Append(0);
      count := 0;
      marked := true;
    }

    ghost function Free(): int
      reads this
    {
      len - |contents| - 3
    }

    method FreeSpace() returns (r: int)
      requires Valid() && !marked
      ensures r == Free()
    {
      if posRead > posWrite {
        r := posRead - posWrite - 3;
      } else {
        r := len - posWrite + posRead - 3;
      }
    }

    /** Throw the draft away. */
    method Rewind()
      requires Valid() && marked
      modifies this`posWrite, this`overflow, this`draft, this`marked
      ensures Valid() && !marked
    {
      hide Holds;
      posWrite := mark;
      overflow := false;
      draft, marked := [], false;
      assert contents + [] == contents;
    }

    /** Inject a byte of the header at the cell after the mark. */
    method Poke(b: byte, ghost i: nat)
      requires Sound() && !overflow && 0 < i < |draft| && mark == Wrap(posRead + |contents| + i - 1, len)
      modifies this`mark, this`draft, buffer
      ensures Sound() && draft == old(draft)[i := b] && mark == Wrap(posRead + |contents| + i, len)
    {
      hide Holds;
      ghost var all, k := contents + draft, |contents|;
      PatchHolds(buffer[..], posRead, all, k + i, b);
      assert all[k + i := b] == contents + draft[i := b];
      mark := mark + 1;
      if mark == len { mark := 0; }
      PrefixHolds(buffer[..][mark := b], posRead, contents, draft[i := b]);
      buffer[mark] := b;
      draft := draft[i := b];
    }

    /** Go back to the mark and inject the count. */
    method Inject()
      requires Valid() && marked && !overflow
      modifies this`mark, this`draft, this`marked, this`contents, buffer
      ensures Valid() && !marked
      ensures contents == old(contents) + Frame(Message(ringClient, old(draft)[3..]))
    {
      hide Holds;
      Poke(HighByte(count), 1);
      Poke(LowByte(count), 2);
      assert old(draft) == [ringClient, 0, 0] + old(draft)[3..];
      assert draft == Frame(Message(ringClient, old(draft)[3..]));
      contents, draft, marked := contents + draft, [], false;
      assert contents + draft == contents;
    }

    /** RingStream::commit: the message is in the ring if there was room for it and it is not empty. */
    method Commit() returns (ok: bool)
      requires Valid() && marked
      modifies this`posWrite, this`overflow, this`mark, this`draft, this`marked, this`contents, this`ringClient, buffer
      ensures Valid() && !marked
      ensures ok == (|old(contents)| + |old(draft)| < len)
      ensures contents == old(contents) +
        if ok && |old(draft)| > 3 then Frame(Message(old(ringClient), old(draft)[3..])) else []
    {
      hide Holds, Frame;
      ok := !overflow;
      if overflow {
        Rewind();
      } else if count == 0 {
        Rewind();
        ringClient := NO_CLIENT;
      } else {
        Inject();
        ringClient := NO_CLIENT;
      }
    }

    method ReadRawByte() returns (b: byte)
      requires Valid() && !marked && contents != []
      modifies this`posRead, this`overflow, this`contents
      ensures Valid() && b == old(contents)[0] && contents == old(contents)[1..]
    {
      hide Holds;
      TakeHolds(buffer[..], posRead, contents);
      b := buffer[posRead];
      posRead := posRead + 1;
      if posRead == len { posRead := 0; }
      overflow := false;
      contents := contents[1..];
      assert contents + draft == contents;
    }

    /** RingStream::read: -1 if there is nothing, and '?' for a byte that looks like a flash insert. */
    method Read() returns (b: int)
      requires Valid() && !marked
      modifies this`posRead, this`overflow, this`contents
      ensures Valid()
      ensures old(contents) == [] ==> b == -1 && contents == []
      ensures old(contents) != [] ==> contents == old(contents)[1..]
      ensures old(contents) != [] ==>
        b == if old(contents)[0] == FLASH_INSERT_MARKER then '?' as int else old(contents)[0]
    {
      hide Holds;
      if posRead == posWrite && !overflow {
        EmptyIfMet();
        return -1;
      }
      var raw := ReadRawByte();
      b := if raw == FLASH_INSERT_MARKER then '?' as int else raw;
    }

    lemma EmptyIfMet()
      requires Valid() && !marked
      ensures posRead == posWrite <==> contents == []
    {
    }

    /** RingStream::count, with its two reads in the order they are written. */
    method Count() returns (n: nat)
      requires Valid() && !marked && |contents| >= 2
      modifies this`posRead, this`overflow, this`contents
      ensures Valid() && n == Word(old(contents)[0], old(contents)[1]) && contents == old(contents)[2..]
    {
      hide Holds;
      var high := ReadRawByte();
      var low := ReadRawByte();
      n := Word(high, low);
    }

    /** A whole transaction: mark, write each byte, commit.  A message that is not empty gets in exactly
        if it is shorter than what freeSpace said before. */
    method Send(client: byte, bytes: seq<byte>) returns (ok: bool)
      requires Valid() && !marked
      modifies this, buffer
      ensures Valid() && !marked
      ensures ok == (|bytes| < old(Free()))
      ensures contents == old(contents) + if ok && bytes != [] then Frame(Message(client, bytes)) else []
    {
      hide Holds, Frame;
      Mark(client);
      var i := 0;
      while i < |bytes|
        invariant i <= |bytes| && Valid() && marked && ringClient == client && contents == old(contents)
        invariant draft == [client, 0, 0] + bytes[..i]
      {
        var r := Write(bytes[i]);
        i := i + 1;
      }
      assert draft[3..] == bytes;
      ok := Commit();
    }

    /** What a reader does: the client, the count, and as many bytes as the count says. */
    method Receive(ghost m: Message, ghost rest: seq<byte>) returns (client: int, bytes: seq<byte>)
      requires Valid() && !marked && contents == Frame(m) + rest && Plain(m) && |m.bytes| < 0x1_0000
      modifies this
      ensures Valid() && !marked && contents == rest && client == m.client && bytes == m.bytes
    {
      hide Holds, Word, Frame;
      FrameParts(m, rest);
      client := Read();
      var n := Count();
      CountIs(m);
      bytes := [];
      while |bytes| < n
        invariant |bytes| <= n == |m.bytes| && Valid() && !marked && contents == m.bytes[|bytes|..] + rest
        invariant bytes == m.bytes[..|bytes|]
      {
        NextPart(m.bytes, |bytes|, rest);
        var b := Read();
        bytes := bytes + [b];
      }
    }

    /** Main result: every run of transactions and whole-message reads on the ring of bytes behaves as a queue of
        messages with room for `len` bytes. */
    method Operate(ops: seq<Op>) returns (delivered: seq<Message>)
      requires Valid() && !marked && contents == [] && forall k | 0 <= k < |ops| :: Orderly(ops[k])
      modifies this, buffer
      ensures Valid() && !marked
      ensures delivered == Run(len, ops).delivered && contents == Flatten(Run(len, ops).queue)
    {
      assert len < 0x1_0000;
      hide Valid, Frame;
      delivered := [];
      var k := 0;
      while k < |ops|
        invariant k <= |ops| && Valid() && !marked
        invariant delivered == Run(len, ops[..k]).delivered && contents == Flatten(Run(len, ops[..k]).queue)
      {
        ghost var before := Run(len, ops[..k]);
        assert ops[..k + 1][..k] == ops[..k];
        RunIsOrderly(len, ops, k);
        match ops[k] {
          case Transaction(client, bytes) =>
            var ok := Send(client, bytes);
            FlattenOne(before.queue, Message(client, bytes));
          case Take =>
            delivered := TakeOne(delivered, before);
        }
        k := k + 1;
      }
      assert ops[..k] == ops;
    }

    /** A reader takes a message if there is one. */
    method TakeOne(delivered: seq<Message>, ghost f: Fifo) returns (more: seq<Message>)
      requires Valid() && !marked && delivered == f.delivered && contents == Flatten(f.queue) && AllPlain(f.queue)
      modifies this, buffer
      ensures Valid() && !marked
      ensures more == Apply(len, f, Take).delivered && contents == Flatten(Apply(len, f, Take).queue)
    {
      hide Holds;
      EmptyIfMet();
      FlattenIsEmpty(f.queue);
      if posRead == posWrite && !overflow { return delivered; }
      var client, bytes := Receive(f.queue[0], Flatten(f.queue[1..]));
      more := delivered + [Message(client, bytes)];
    }
  }

  /** No byte of the message looks like a flash insert. */
  predicate Plain(m: Message) {
    m.client != FLASH_INSERT_MARKER && FLASH_INSERT_MARKER !in m.bytes
  }

  lemma FrameParts(m: Message, rest: seq<byte>)
    ensures var c := Frame(m) + rest;
      |c| >= 3 && c[0] == m.client && c[1] == HighByte(|m.bytes|) && c[2] == LowByte(|m.bytes|)
      && c[1..][2..] == m.bytes + rest
  {
  }

  lemma NextPart(bytes: seq<byte>, i: nat, rest: seq<byte>)
    requires i < |bytes|
    ensures var c := bytes[i..] + rest; c[0] == bytes[i] && c[1..] == bytes[i + 1..] + rest
    ensures bytes[..i] + [bytes[i]] == bytes[..i + 1]
  {
  }

  lemma CountIs(m: Message)
    requires |m.bytes| < 0x1_0000
    ensures Word(HighByte(|m.bytes|), LowByte(|m.bytes|)) == |m.bytes|
  {
  }

  // ---------- The queue of messages ----------

  datatype Op = Transaction(client: byte, bytes: seq<byte>) | Take

  /** Messages in the ring, those a reader has taken, and all that were accepted. */
  datatype Fifo = Fifo(queue: seq<Message>, delivered: seq<Message>, accepted: seq<Message>)

  function Flatten(q: seq<Message>): seq<byte> {
    if q == [] then [] else Frame(q[0]) + Flatten(q[1..])
  }

  /** An empty message is dropped, and one that finds no room is refused. */
  function Apply(len: nat, f: Fifo, op: Op): Fifo {
    match op
    case Transaction(client, bytes) =>
      if bytes != [] && |Flatten(f.queue)| + 3 + |bytes| < len then
        f.(queue := f.queue + [Message(client, bytes)], accepted := f.accepted + [Message(client, bytes)])
      else f
    case Take =>
      if f.queue == [] then f else f.(queue := f.queue[1..], delivered := f.delivered + [f.queue[0]])
  }

  function Run(len: nat, ops: seq<Op>): Fifo {
    if ops == [] then Fifo([], [], []) else Apply(len, Run(len, ops[..|ops| - 1]), ops[|ops| - 1])
  }

  predicate Orderly(op: Op) {
    op.Transaction? ==> Plain(Message(op.client, op.bytes))
  }

  ghost predicate AllPlain(q: seq<Message>) {
    forall i | 0 <= i < |q| :: Plain(q[i]) && |q[i].bytes| < 0x1_0000
  }

  lemma {:induction false} RunIsOrderly(len: nat, ops: seq<Op>, k: nat)
    requires k <= |ops| && len <= 0x1_0000 && forall i | 0 <= i < |ops| :: Orderly(ops[i])
    ensures AllPlain(Run(len, ops[..k]).queue)
    decreases k
  {
    if k > 0 {
      assert ops[..k][..k - 1] == ops[..k - 1];
      RunIsOrderly(len, ops, k - 1);
    }
  }

  lemma {:induction false} FlattenOne(q: seq<Message>, m: Message)
    ensures Flatten(q + [m]) == Flatten(q) + Frame(m)
    decreases |q|
  {
    hide Frame;
    if q == [] {
      assert [m][1..] == [];
      assert Flatten([m]) == Frame(m) + [];
    } else {
      assert (q + [m])[1..] == q[1..] + [m];
      FlattenOne(q[1..], m);
    }
  }

  lemma FlattenIsEmpty(q: seq<Message>)
    ensures Flatten(q) == [] <==> q == []
  {
  }

  /** What such a queue of messages promises: readers get exactly the accepted messages, in order, and what they
      have not got yet is in the ring. */
  lemma {:induction false} FirstInFirstOut(len: nat, ops: seq<Op>)
    ensures var f := Run(len, ops); f.delivered + f.queue == f.accepted
    decreases |ops|
  {
    if ops != [] {
      FirstInFirstOut(len, ops[..|ops| - 1]);
    }
  }
}

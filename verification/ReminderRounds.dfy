/** Whom issueReminders of DCC.cpp gets round to.  A slot of the table is described by the loop states in which it
    is to be reminded; how it is told then is part of LocoThrottle. */
module ReminderRounds {
  type Entry = (nat, nat)

  /** The next call goes on at the `at`-th slot, or at the head of the table if slots have been added or removed. */
  datatype Cursor = Cursor(at: nat, changed: bool, status: nat)

  /** The cursor and the reminders so far, as slots and loop states. */
  datatype Round = Round(cursor: Cursor, log: seq<Entry>)

  predicate Stands(needs: seq<set<nat>>, c: Cursor) {
    c.status <= 9 && (c.changed || c.at <= |needs|)
  }

  function First(needs: seq<set<nat>>, status: nat, from: nat): (at: nat)
    requires from <= |needs|
    ensures from <= at <= |needs|
    ensures forall k | from <= k < at :: status !in needs[k]
    ensures at < |needs| ==> status in needs[at]
    decreases |needs| - from
  {
    if from == |needs| || status in needs[from] then from else First(needs, status, from + 1)
  }

  predicate Restarts(needs: seq<set<nat>>, c: Cursor) {
    needs != [] && (c.changed || c.at == |needs|)
  }

  function Restarted(needs: seq<set<nat>>, c: Cursor): (r: Cursor)
    requires Stands(needs, c)
    ensures Stands(needs, r) && !r.changed
  {
    if Restarts(needs, c) then Cursor(0, false, (c.status + 1) % 10)
    else if needs == [] then Cursor(0, false, c.status)
    else c
  }

  /** One call of issueReminders. */
  function Step(needs: seq<set<nat>>, r: Round): (n: Round)
    requires Stands(needs, r.cursor)
    ensures Stands(needs, n.cursor) && !n.cursor.changed && r.log <= n.log
  {
    var c := Restarted(needs, r.cursor);
    var at := First(needs, c.status, c.at);
    if at == |needs| then Round(c.(at := at), r.log)
    else Round(c.(at := at + 1), r.log + [(at, c.status)])
  }

  lemma Steps(needs: seq<set<nat>>, c: Cursor, from: Cursor, at: nat)
    requires Stands(needs, c) && from == Restarted(needs, c) && from.at <= at <= |needs|
    requires forall k | from.at <= k < at :: from.status !in needs[k]
    requires at < |needs| ==> from.status in needs[at]
    ensures Step(needs, Round(c, [])) ==
      if at == |needs| then Round(from.(at := at), []) else Round(from.(at := at + 1), [(at, from.status)])
  {
    var first := First(needs, from.status, from.at);
    assert at <= first && first <= at;
  }

  function Run(needs: seq<set<nat>>, r: Round, n: nat): (e: Round)
    requires Stands(needs, r.cursor)
    ensures Stands(needs, e.cursor) && r.log <= e.log
  {
    if n == 0 then r else Step(needs, Run(needs, r, n - 1))
  }

  // Each slot in its turn

  /** All slots from the `from`-th on that are to be reminded in this state, in the order of the table. */
  function Pass(needs: seq<set<nat>>, status: nat, from: nat): (p: seq<Entry>)
    requires from <= |needs|
    ensures |p| <= |needs| - from
    decreases |needs| - from
  {
    if from == |needs| then []
    else (if status in needs[from] then [(from, status)] else []) + Pass(needs, status, from + 1)
  }

  /** `p` passes through the table, in the states behind `status`. */
  function Passes(needs: seq<set<nat>>, status: nat, p: nat): (r: seq<Entry>)
    ensures |r| <= p * |needs|
  {
    if p == 0 then [] else Passes(needs, status, p - 1) + Pass(needs, (status + p) % 10, 0)
  }

  /** What is left of the pass. */
  function Left(needs: seq<set<nat>>, c: Cursor): seq<Entry>
    requires Stands(needs, c)
  {
    if c.changed then [] else Pass(needs, c.status, c.at)
  }

  lemma {:induction false} FirstOfPass(needs: seq<set<nat>>, status: nat, from: nat)
    requires from <= |needs|
    ensures var at := First(needs, status, from);
      Pass(needs, status, from) == if at == |needs| then [] else [(at, status)] + Pass(needs, status, at + 1)
    decreases |needs| - from
  {
    if from < |needs| && status !in needs[from] { FirstOfPass(needs, status, from + 1); }
  }

  lemma StepInOrder(needs: seq<set<nat>>, r: Round)
    requires Stands(needs, r.cursor)
    ensures var n := Step(needs, r);
      if Restarts(needs, r.cursor)
      then n.cursor.status == (r.cursor.status + 1) % 10
        && n.log + Left(needs, n.cursor) == r.log + Pass(needs, (r.cursor.status + 1) % 10, 0)
      else n.cursor.status == r.cursor.status && n.log + Left(needs, n.cursor) == r.log + Left(needs, r.cursor)
    ensures var n := Step(needs, r); |n.log| == |r.log| ==> n.cursor.at == |needs|
    ensures |r.log| <= |Step(needs, r).log| <= |r.log| + 1
  {
    hide Pass, First;
    var c := Restarted(needs, r.cursor);
    FirstOfPass(needs, c.status, c.at);
    assert needs == [] ==> Pass(needs, c.status, 0) == [];
    assert Restarts(needs, r.cursor) ==> Left(needs, r.cursor) == [];
  }

  /** A pass is each slot that is to be reminded in its state, once and in the order of the table. */
  lemma {:induction false} PassIsEach(needs: seq<set<nat>>, status: nat, from: nat, k: nat)
    requires from <= |needs|
    ensures (k, status) in Pass(needs, status, from) <==> from <= k < |needs| && status in needs[k]
    decreases |needs| - from
  {
    if from < |needs| {
      PassIsEach(needs, status, from + 1, k);
      var rest := Pass(needs, status, from + 1);
      assert Pass(needs, status, from) == (if status in needs[from] then [(from, status)] else []) + rest;
      assert (k, status) in [(from, status)] <==> k == from;
    }
  }

  lemma {:induction false} PassAscends(needs: seq<set<nat>>, status: nat, from: nat, i: nat)
    requires from <= |needs| && i < |Pass(needs, status, from)|
    ensures var p := Pass(needs, status, from);
      from <= p[i].0 && p[i].1 == status && (i + 1 < |p| ==> p[i].0 < p[i + 1].0)
    decreases |needs| - from
  {
    if status !in needs[from] {
      PassAscends(needs, status, from + 1, i);
    } else if i > 0 {
      PassAscends(needs, status, from + 1, i - 1);
    } else if |Pass(needs, status, from)| > 1 {
      PassAscends(needs, status, from + 1, 0);
    }
  }

  /** From `r` to `e` in `n` calls and `p` passes begun. */
  ghost predicate InOrder(needs: seq<set<nat>>, r: Round, e: Round, n: nat, p: nat)
    requires Stands(needs, r.cursor) && Stands(needs, e.cursor)
  {
    && e.cursor.status == (r.cursor.status + p) % 10
    && e.log + Left(needs, e.cursor) == r.log + Left(needs, r.cursor) + Passes(needs, r.cursor.status, p)
    && (p > 0 ==> r.log + Left(needs, r.cursor) + Passes(needs, r.cursor.status, p - 1) <= e.log)
    && (needs != [] ==> n + |r.log| <= |e.log| + p + (if e.cursor.at == |needs| then 1 else 0))
  }

  lemma InOrderOnce(needs: seq<set<nat>>, r: Round, d: Round, n: nat, p: nat)
    requires Stands(needs, r.cursor) && Stands(needs, d.cursor) && InOrder(needs, r, d, n, p)
    requires !d.cursor.changed || p == n == 0
    ensures InOrder(needs, r, Step(needs, d), n + 1, if Restarts(needs, d.cursor) then p + 1 else p)
  {
    hide Pass, Passes, Left, Step, Restarted, Restarts, Stands;
    StepInOrder(needs, d);
    var e := Step(needs, d);
    if Restarts(needs, d.cursor) {
      EndOfPass(needs, d.cursor);
      NextPass(needs, r.cursor.status, p);
      assert d.log + [] == d.log;
      Longer(d.log, r.log + Left(needs, r.cursor), Passes(needs, r.cursor.status, p),
        Pass(needs, (d.cursor.status + 1) % 10, 0), e.log, Left(needs, e.cursor));
    } else {
      NoRestart(needs, d.cursor);
    }
  }

  lemma Longer<T>(d: seq<T>, a: seq<T>, b: seq<T>, c: seq<T>, e: seq<T>, left: seq<T>)
    requires d == a + b && e + left == d + c && d <= e
    ensures e + left == a + (b + c) && a + b <= e
  {
  }

  lemma NoRestart(needs: seq<set<nat>>, c: Cursor)
    requires Stands(needs, c) && !Restarts(needs, c)
    ensures needs != [] ==> !c.changed && c.at < |needs|
  {
  }

  lemma NextPass(needs: seq<set<nat>>, status: nat, p: nat)
    ensures Passes(needs, status, p + 1) == Passes(needs, status, p) + Pass(needs, ((status + p) % 10 + 1) % 10, 0)
  {
    assert ((status + p) % 10 + 1) % 10 == (status + p + 1) % 10;
  }

  /** In any number of calls the slots are reminded pass by pass, in the order of the table, with no one left out
      and no one twice; and as `n` calls can only do nothing at the end of a pass, the passes go on. */
  lemma {:induction false} RoundsAreInOrder(needs: seq<set<nat>>, r: Round, n: nat) returns (p: nat)
    requires Stands(needs, r.cursor)
    ensures InOrder(needs, r, Run(needs, r, n), n, p) && (n == 0 ==> p == 0)
  {
    hide InOrder, Step, Restarts;
    if n == 0 {
      p := 0;
      NothingYet(needs, r);
    } else {
      p := RoundsAreInOrder(needs, r, n - 1);
      var d := Run(needs, r, n - 1);
      InOrderOnce(needs, r, d, n - 1, p);
      p := if Restarts(needs, d.cursor) then p + 1 else p;
    }
  }

  lemma NothingYet(needs: seq<set<nat>>, r: Round)
    requires Stands(needs, r.cursor)
    ensures InOrder(needs, r, r, 0, 0)
  {
    assert Passes(needs, r.cursor.status, 0) == [];
  }

  lemma EndOfPass(needs: seq<set<nat>>, c: Cursor)
    requires Stands(needs, c) && Restarts(needs, c)
    ensures Left(needs, c) == []
  {
  }

  lemma {:induction false} HasPass(needs: seq<set<nat>>, status: nat, p: nat, q: nat, k: nat)
    requires 0 < q <= p && k < |needs| && (status + q) % 10 in needs[k]
    ensures (k, (status + q) % 10) in Passes(needs, status, p)
    decreases p
  {
    if p == q { PassIsEach(needs, (status + p) % 10, 0, k); } else { HasPass(needs, status, p - 1, q, k); }
  }

  lemma EnoughPasses(needs: seq<set<nat>>, r: Round, e: Round, n: nat, p: nat)
    requires needs != [] && n > 11 * (|needs| + 1)
    requires Stands(needs, r.cursor) && Stands(needs, e.cursor) && InOrder(needs, r, e, n, p)
    ensures p >= 11
  {
    hide Pass, Passes;
    FewFit(p, |needs|);
  }

  lemma Earlier(needs: seq<set<nat>>, r: Round, e: Round, n: nat, p: nat)
    requires Stands(needs, r.cursor) && Stands(needs, e.cursor) && InOrder(needs, r, e, n, p) && p > 0
    ensures r.log + Left(needs, r.cursor) + Passes(needs, r.cursor.status, p - 1) <= e.log
  {
    hide Left, Passes;
  }

  lemma FewFit(p: nat, m: nat)
    ensures p <= 10 ==> p * m <= 10 * m
  {
    assert (10 - p) * m == 10 * m - p * m;
  }

  lemma InSuffix<T>(a: seq<T>, b: seq<T>, c: seq<T>, s: seq<T>, x: T)
    requires a + b + c <= s && x in c
    ensures x in s[|a|..]
  {
    var i :| 0 <= i < |c| && c[i] == x;
    assert s[|a|..][|b| + i] == (a + b + c)[|a| + |b| + i];
  }

  lemma PassOf(before: nat, status: nat) returns (q: nat)
    requires status <= 9
    ensures 0 < q <= 10 && (before + q) % 10 == status
  {
    q := (status + 9 - before % 10) % 10 + 1;
  }

  /** Everybody who is to be reminded of something is, in any 11 times as many calls as there are slots and one. */
  lemma EveryoneIsReminded(needs: seq<set<nat>>, r: Round, n: nat, k: nat, status: nat)
    requires Stands(needs, r.cursor) && n > 11 * (|needs| + 1)
    requires k < |needs| && status <= 9 && status in needs[k]
    ensures (k, status) in Run(needs, r, n).log[|r.log|..]
  {
    hide *;
    var p := RoundsAreInOrder(needs, r, n);
    var e := Run(needs, r, n);
    EnoughPasses(needs, r, e, n, p);
    var q := PassOf(r.cursor.status, status);
    HasPass(needs, r.cursor.status, p - 1, q, k);
    assert r.log + Left(needs, r.cursor) + Passes(needs, r.cursor.status, p - 1) <= e.log by {
      Earlier(needs, r, e, n, p);
    }
    InSuffix(r.log, Left(needs, r.cursor), Passes(needs, r.cursor.status, p - 1), e.log, (k, status));
  }
}

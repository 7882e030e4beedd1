/** What is common to the fixed rings of the kernel and its services. */
module Ring {
  /** The position i steps behind head. */
  function Slot(head: nat, i: nat, n: nat): nat
    requires n > 0
  {
    (head + i) % n
  }

  lemma Twice(q: int, n: nat)
    requires q >= 2
    ensures n * q >= 2 * n
  {
  }

  lemma ModOnce(x: nat, n: nat)
    requires n <= x < 2 * n
    ensures x % n == x - n
  {
    var q := x / n;
    assert x == n * q + x % n;
    if q >= 2 {
      Twice(q, n);
    } else if q != 0 {
      assert q == 1;
    }
  }

  lemma SlotIs(head: nat, i: nat, n: nat)
    requires head < n && i <= n
    ensures Slot(head, i, n) == if head + i < n then head + i else head + i - n
  {
    if head + i >= n {
      if head + i < 2 * n {
        ModOnce(head + i, n);
      }
    }
  }

  /** The count elements from head on. */
  function Held<T>(a: seq<T>, head: nat, count: nat): (r: seq<T>)
    requires |a| > 0
    ensures |r| == count
  {
    seq(count, i requires 0 <= i < count => a[Slot(head, i, |a|)])
  }

  lemma HeldPush<T>(a: seq<T>, head: nat, count: nat, x: T)
    requires head < |a| && count < |a|
    ensures Held(a[Slot(head, count, |a|) := x], head, count + 1) == Held(a, head, count) + [x]
  {
    var a', n := a[Slot(head, count, |a|) := x], |a|;
    SlotIs(head, count, n);
    forall i | 0 <= i < count ensures Held(a', head, count + 1)[i] == Held(a, head, count)[i] {
      SlotIs(head, i, n);
    }
  }

  lemma HeldPop<T>(a: seq<T>, head: nat, count: nat)
    requires head < |a| && 0 < count <= |a|
    ensures Slot(head, 1, |a|) < |a| && Held(a, head, count)[0] == a[head]
    ensures Held(a, Slot(head, 1, |a|), count - 1) == Held(a, head, count)[1..]
  {
    var n := |a|;
    SlotIs(head, 0, n);
    SlotIs(head, 1, n);
    forall i | 0 <= i < count - 1 ensures Slot(Slot(head, 1, n), i, n) == Slot(head, i + 1, n) {
      SlotIs(head, i + 1, n);
      SlotIs(Slot(head, 1, n), i, n);
    }
  }

  /** The last n elements, or all if there are fewer. */
  function Last<T>(s: seq<T>, n: nat): seq<T> {
    if |s| <= n then s else s[|s| - n..]
  }

  lemma LastPush<T>(s: seq<T>, x: T, n: nat)
    requires n > 0
    ensures Last(Last(s, n) + [x], n) == Last(s + [x], n)
    ensures Last(Last(s, n) + [x], n) == if |Last(s, n)| < n then Last(s, n) + [x] else Last(s, n)[1..] + [x]
  {
  }
}

/** kernel/gui/gui_ipc.c: the outbound message ring. Bytes are numbers. */
module GuiIpc {
  import opened Ring

  const RING_SIZE := 64
  const MAX_MSG_LEN := 512
  const NEWLINE := 10

  datatype IpcMessage = IpcMessage(msg: seq<nat>, len: nat)

  function Short(json: seq<nat>): seq<nat> {
    if |json| < MAX_MSG_LEN - 2 then json else json[..MAX_MSG_LEN - 2]
  }

  /** The line kept for a message: at most 510 bytes of it and a line feed. */
  function Line(json: seq<nat>): seq<nat> {
    Short(json) + [NEWLINE]
  }

  /** What uart_puts writes of a buffer: the bytes before the first zero (gui_ipc.c:80-84). */
  function CString(s: seq<nat>): seq<nat> {
    if s == [] || s[0] == 0 then [] else [s[0]] + CString(s[1..])
  }

  function Lines(jsons: seq<seq<nat>>): seq<seq<nat>> {
    seq(|jsons|, i requires 0 <= i < |jsons| => Line(jsons[i]))
  }

  function Concat(lines: seq<seq<nat>>): seq<nat> {
    if lines == [] then [] else lines[0] + Concat(lines[1..])
  }

  function Emitted(lines: seq<seq<nat>>): seq<nat> {
    if lines == [] then [] else CString(lines[0]) + Emitted(lines[1..])
  }

  lemma {:induction false} CStringShort(s: seq<nat>)
    ensures |CString(s)| <= |s| && (|CString(s)| == |s| <==> 0 !in s) && (0 !in s ==> CString(s) == s)
  {
    if s != [] {
      assert s == [s[0]] + s[1..];
      CStringShort(s[1..]);
    }
  }

  predicate Plain(lines: seq<seq<nat>>) {
    forall i | 0 <= i < |lines| :: 0 !in lines[i]
  }

  lemma {:induction false} EmittedShort(lines: seq<seq<nat>>)
    ensures |Emitted(lines)| <= |Concat(lines)| && (|Emitted(lines)| == |Concat(lines)| <==> Plain(lines))
    ensures Plain(lines) ==> Emitted(lines) == Concat(lines)
  {
    if lines != [] {
      CStringShort(lines[0]);
      EmittedShort(lines[1..]);
      assert Plain(lines) <==> 0 !in lines[0] && Plain(lines[1..]) by {
        assert lines == [lines[0]] + lines[1..];
      }
    }
  }

  /** A flush writes the lines whole exactly when none of them has a zero byte in it. */
  lemma WholeUnlessZero(lines: seq<seq<nat>>)
    ensures Emitted(lines) == Concat(lines) <==> Plain(lines)
  {
    EmittedShort(lines);
  }

  /** The buffer holds the line and a zero, whatever an older message left behind it. */
  predicate Holds(m: IpcMessage, json: seq<nat>) {
    |m.msg| == MAX_MSG_LEN && m.len == |Line(json)| && m.msg[..m.len] == Line(json) && m.msg[m.len] == 0
  }

  ghost predicate HoldAll(ms: seq<IpcMessage>, jsons: seq<seq<nat>>) {
    |ms| == |jsons| && forall i {:trigger ms[i]} | 0 <= i < |ms| :: Holds(ms[i], jsons[i])
  }

  lemma HoldAllPush(ms: seq<IpcMessage>, jsons: seq<seq<nat>>, m: IpcMessage, json: seq<nat>)
    requires HoldAll(ms, jsons) && Holds(m, json)
    ensures HoldAll(ms + [m], jsons + [json])
    ensures ms != [] ==> HoldAll(ms[1..], jsons[1..]) && HoldAll(ms[1..] + [m], jsons[1..] + [json])
  {
  }

  /** The buffer that ipc_ring_push fills (gui_ipc.c:97-101). */
  lemma Filled(json: seq<nat>, before: seq<nat>, n: nat)
    requires |before| == MAX_MSG_LEN && n == |Short(json)|
    ensures |json[..n] + before[n..]| == MAX_MSG_LEN
    ensures Holds(IpcMessage((json[..n] + before[n..])[n := NEWLINE][n + 1 := 0], n + 1), json)
  {
    var m := (json[..n] + before[n..])[n := NEWLINE][n + 1 := 0];
    assert m[..n + 1] == Line(json);
  }

  lemma {:induction false} CutAtZero(s: seq<nat>, k: nat)
    requires k < |s| && s[k] == 0
    ensures CString(s) == CString(s[..k])
  {
    if k > 0 && s[0] != 0 {
      CutAtZero(s[1..], k - 1);
      assert s[..k][1..] == s[1..][..k - 1];
    }
  }

  lemma WholeLine(m: IpcMessage, json: seq<nat>)
    requires Holds(m, json)
    ensures CString(m.msg) == CString(Line(json))
  {
    CutAtZero(m.msg, m.len);
  }

  lemma EmitStep(m: IpcMessage, jsons: seq<seq<nat>>)
    requires jsons != [] && Holds(m, jsons[0])
    ensures Emitted(Lines(jsons)) == CString(m.msg) + Emitted(Lines(jsons[1..]))
  {
    WholeLine(m, jsons[0]);
    assert Lines(jsons)[1..] == Lines(jsons[1..]);
  }

  class IpcRing {
    const ring: array<IpcMessage>
    var head: nat
    var tail: nat

    /** The messages pushed since the last flush. */
    ghost var pushed: seq<seq<nat>>

    ghost function Count(): nat
      reads this
      requires head < RING_SIZE && tail < RING_SIZE
    {
      if head <= tail then tail - head else tail + RING_SIZE - head
    }

    ghost predicate Shape()
      reads this, ring
    {
      && ring.Length == RING_SIZE && head < RING_SIZE && tail < RING_SIZE
      && forall i | 0 <= i < RING_SIZE :: |ring[i].msg| == MAX_MSG_LEN
    }

    /** The ring holds the last 63 messages, or all if there were fewer, in order. */
    ghost predicate Valid()
      reads this, ring
    {
      Shape() && HoldAll(Held(ring[..], head, Count()), Last(pushed, RING_SIZE - 1))
    }

    constructor ()
      ensures Valid() && fresh(ring) && pushed == []
    {
      ring := new IpcMessage[RING_SIZE](_ => IpcMessage(seq(MAX_MSG_LEN, _ => 0), 0));
      head, tail, pushed := 0, 0, [];
    }

    /** ipc_ring_push (gui_ipc.c:91-103). */
    method Push(json: seq<nat>)
      requires Valid()
      modifies this, ring
      ensures Valid() && pushed == old(pushed) + [json]
    {
      hide Held, HoldAll, Holds, Last;
      ghost var a, h0, n0 := ring[..], head, Count();
      SlotIs(head, 1, RING_SIZE);
      SlotIs(tail, 1, RING_SIZE);
      SlotIs(head, Count(), RING_SIZE);
      var nextTail := (tail + 1) % RING_SIZE;
      if nextTail == head {
        head := (head + 1) % RING_SIZE;
      }
      var copyLen := if |json| < MAX_MSG_LEN - 2 then |json| else MAX_MSG_LEN - 2;
      var buffer := ring[tail].msg;
      Filled(json, buffer, copyLen);
      buffer := json[..copyLen] + buffer[copyLen..];
      buffer := buffer[copyLen := NEWLINE];
      buffer := buffer[copyLen + 1 := 0];
      ghost var m := IpcMessage(buffer, copyLen + 1);
      PushKeeps(a, h0, n0, m, pushed, json);
      ring[tail] := IpcMessage(buffer, copyLen + 1);
      assert ring[..] == a[tail := m];
      tail := nextTail;
      pushed := pushed + [json];
    }

    /** ipc_ring_flush (gui_ipc.c:106-111): writes the lines held, oldest first, each up to a
        zero byte in it. */
    method Flush() returns (out: seq<nat>)
      requires Valid()
      modifies this
      ensures Valid() && pushed == [] && out == Emitted(Lines(Last(old(pushed), RING_SIZE - 1)))
    {
      hide Held, Holds, Last, CString, Lines, Emitted;
      out := [];
      ghost var jsons := Last(pushed, RING_SIZE - 1);
      ghost var rest := jsons;
      while head != tail
        invariant Shape() && HoldAll(Held(ring[..], head, Count()), rest)
        invariant out + Emitted(Lines(rest)) == Emitted(Lines(jsons))
        decreases |rest|
      {
        SlotIs(head, 1, RING_SIZE);
        HeldPop(ring[..], head, Count());
        EmitStep(ring[head], rest);
        out := out + CString(ring[head].msg);
        head := (head + 1) % RING_SIZE;
        rest := rest[1..];
      }
      assert rest == [];
      EmitNone();
      LastNone<seq<nat>>(RING_SIZE - 1);
      pushed := [];
    }
  }

  /** A full ring gives up its oldest message for the new one. */
  lemma PushKeeps(a: seq<IpcMessage>, h: nat, n: nat, m: IpcMessage, pushed: seq<seq<nat>>, json: seq<nat>)
    requires |a| == RING_SIZE && h < RING_SIZE && n < RING_SIZE && Holds(m, json)
    requires HoldAll(Held(a, h, n), Last(pushed, RING_SIZE - 1))
    ensures Slot(h, 1, RING_SIZE) < RING_SIZE && Slot(h, n, RING_SIZE) < RING_SIZE
    ensures var a' := a[Slot(h, n, RING_SIZE) := m];
      if n == RING_SIZE - 1 then HoldAll(Held(a', Slot(h, 1, RING_SIZE), n), Last(pushed + [json], RING_SIZE - 1))
      else HoldAll(Held(a', h, n + 1), Last(pushed + [json], RING_SIZE - 1))
  {
    hide Held, Holds, Last;
    SlotIs(h, 1, RING_SIZE);
    SlotIs(h, n, RING_SIZE);
    HoldAllPush(Held(a, h, n), Last(pushed, RING_SIZE - 1), m, json);
    LastPush(pushed, json, RING_SIZE - 1);
    LastSize(pushed, RING_SIZE - 1);
    if n == RING_SIZE - 1 {
      HeldPop(a, h, n);
      SlotIs(Slot(h, 1, RING_SIZE), n - 1, RING_SIZE);
      HeldPush(a, Slot(h, 1, RING_SIZE), n - 1, m);
    } else {
      HeldPush(a, h, n, m);
    }
  }

  lemma LastSize<T>(s: seq<T>, n: nat)
    ensures |Last(s, n)| <= n
  {
  }

  lemma LastNone<T>(n: nat)
    ensures Last<T>([], n) == []
  {
  }

  lemma EmitNone()
    ensures Emitted(Lines([])) == []
  {
  }
}

/** services/panelmgr/panelmgr.c: the event log. */
module EventLog {
  import opened Basics
  import opened Ring

  const RING_SIZE := 256

  datatype Entry = Entry(id: nat, level: nat, eventId: nat, source: string, message: string)

  const BLANK := Entry(0, 0, 0, "", "")

  /** strncpy into a buffer of n bytes whose last byte is always zero. */
  function Clip(s: string, n: nat): string
    requires n > 0
  {
    if |s| < n then s else s[..n - 1]
  }

  /** The entry written for a call: a missing source or message leaves what the slot held
      (panelmgr.c:56-61). */
  function Written(was: Entry, id: nat, level: nat, eventId: nat, source: Option<string>,
                   message: Option<string>): Entry
  {
    Entry(id, level, eventId, if source.Some? then Clip(source.value, 32) else was.source,
          if message.Some? then Clip(message.value, 256) else was.message)
  }

  /** What is in the slot of the next entry: the entry of 256 calls before, if any. */
  function Overwritten(log: seq<Entry>): Entry {
    if |log| < RING_SIZE then BLANK else log[|log| - RING_SIZE]
  }

  ghost predicate Logs(a: seq<Entry>, h: nat, n: nat, log: seq<Entry>) {
    && |a| == RING_SIZE && h < RING_SIZE && n <= RING_SIZE && Held(a, h, n) == Last(log, RING_SIZE)
    && (n < RING_SIZE ==> h == 0 && forall i | n <= i < RING_SIZE :: a[i] == BLANK)
  }

  lemma SlotFound(a: seq<Entry>, h: nat, n: nat, log: seq<Entry>)
    requires Logs(a, h, n, log)
    ensures Slot(h, n, RING_SIZE) < RING_SIZE && a[Slot(h, n, RING_SIZE)] == Overwritten(log)
  {
    SlotIs(h, n, RING_SIZE);
    assert |Held(a, h, n)| == n;
    if n == RING_SIZE {
      HeldPop(a, h, n);
      assert Last(log, RING_SIZE)[0] == log[|log| - RING_SIZE];
    }
  }

  lemma LogKeeps(a: seq<Entry>, h: nat, n: nat, log: seq<Entry>, e: Entry)
    requires Logs(a, h, n, log)
    ensures Slot(h, n, RING_SIZE) < RING_SIZE && Slot(h, 1, RING_SIZE) < RING_SIZE
    ensures var a' := a[Slot(h, n, RING_SIZE) := e];
      if n < RING_SIZE then Logs(a', h, n + 1, log + [e]) else Logs(a', Slot(h, 1, RING_SIZE), n, log + [e])
  {
    SlotIs(h, n, RING_SIZE);
    SlotIs(h, 1, RING_SIZE);
    LastPush(log, e, RING_SIZE);
    assert |Held(a, h, n)| == n;
    hide Last, Held;
    if n < RING_SIZE {
      HeldPush(a, h, n, e);
    } else {
      HeldPop(a, h, n);
      SlotIs(Slot(h, 1, RING_SIZE), n - 1, RING_SIZE);
      HeldPush(a, Slot(h, 1, RING_SIZE), n - 1, e);
    }
  }

  class PanelLog {
    const ring: array<Entry>
    var head: nat
    var count: nat
    var nextId: nat

    /** All entries written so far. */
    ghost var log: seq<Entry>

    /** The ring holds the last 256 entries in order, and blank slots behind them. */
    ghost predicate Valid()
      reads this, ring
    {
      ring.Length == RING_SIZE && Logs(ring[..], head, count, log)
    }

    constructor (firstId: nat)
      ensures Valid() && fresh(ring) && log == []
    {
      ring := new Entry[RING_SIZE](_ => BLANK);
      head, count, nextId, log := 0, 0, firstId, [];
    }

    /** panelmgr_log (panelmgr.c:46-64) without the notification. */
    method Log(level: nat, source: Option<string>, eventId: nat, message: Option<string>)
      requires Valid()
      modifies this, ring
      ensures Valid() && log == old(log) + [Written(Overwritten(old(log)), old(nextId), level, eventId, source,
                                                    message)]
    {
      hide Held, Last, Overwritten, Written;
      ghost var a := ring[..];
      var idx := (head + count) % RING_SIZE;
      SlotFound(a, head, count, log);
      var e := Written(ring[idx], nextId, level, eventId, source, message);
      LogKeeps(a, head, count, log, e);
      if count < RING_SIZE {
        count := count + 1;
      } else {
        head := (head + 1) % RING_SIZE;
      }
      nextId := nextId + 1;
      ring[idx] := e;
      assert ring[..] == a[idx := e];
      log := log + [e];
    }

    /** panelmgr_get_log (panelmgr.c:79-87): the oldest entries held, in order, into out. */
    method GetLog(out: array<Entry>) returns (n: nat)
      requires Valid() && out != ring
      modifies out
      ensures n == if out.Length < |Last(log, RING_SIZE)| then out.Length else |Last(log, RING_SIZE)|
      ensures out[..n] == Last(log, RING_SIZE)[..n] && out[n..] == old(out[n..])
    {
      n := if count < out.Length then count else out.Length;
      for i := 0 to n
        invariant out[..i] == Held(ring[..], head, count)[..i] && out[i..] == old(out[i..])
      {
        out[i] := ring[(head + i) % RING_SIZE];
        assert out[i] == Held(ring[..], head, count)[i];
      }
    }
  }
}

/** kernel/sched/sched.c: the queue of deferred procedure calls. */
module DpcQueue {
  import opened Ring

  const DEPTH := 64
  const PER_DRAIN := 8

  /** Routine 0 stands for a null pointer. */
  datatype Dpc = Dpc(routine: nat, context: int, urgent: bool)

  function Enqueued(q: seq<Dpc>, e: Dpc): seq<Dpc> {
    if |q| >= DEPTH then q else q + [e]
  }

  function EnqueuedAll(q: seq<Dpc>, es: seq<Dpc>): seq<Dpc>
    decreases |es|
  {
    if es == [] then q else EnqueuedAll(Enqueued(q, es[0]), es[1..])
  }

  /** What the routine of e queues when it runs as entry number i since the start: the same
      routine may queue something else each time. */
  function Effect(effects: (nat, Dpc) -> seq<Dpc>, i: nat, e: Dpc): seq<Dpc> {
    if e.routine == 0 then [] else effects(i, e)
  }

  /** The queue after up to n entries were processed, the first of them as number i
      (sched.c:460-471). */
  function Drained(q: seq<Dpc>, n: nat, i: nat, effects: (nat, Dpc) -> seq<Dpc>): seq<Dpc>
    decreases n
  {
    if n == 0 || q == [] then q else Drained(EnqueuedAll(q[1..], Effect(effects, i, q[0])), n - 1, i + 1, effects)
  }

  function Processed(q: seq<Dpc>, n: nat, i: nat, effects: (nat, Dpc) -> seq<Dpc>): seq<Dpc>
    decreases n
  {
    if n == 0 || q == [] then []
      else [q[0]] + Processed(EnqueuedAll(q[1..], Effect(effects, i, q[0])), n - 1, i + 1, effects)
  }

  lemma DrainStep(q: seq<Dpc>, n: nat, i: nat, effects: (nat, Dpc) -> seq<Dpc>)
    ensures n == 0 || q == [] ==> Drained(q, n, i, effects) == q && Processed(q, n, i, effects) == []
    ensures n > 0 && q != [] ==>
      var q1 := EnqueuedAll(q[1..], Effect(effects, i, q[0]));
      Drained(q, n, i, effects) == Drained(q1, n - 1, i + 1, effects)
        && Processed(q, n, i, effects) == [q[0]] + Processed(q1, n - 1, i + 1, effects)
  {
  }

  /** Queueing only adds at the back, up to 64 entries. */
  lemma {:induction false} EnqueuedKeeps(q: seq<Dpc>, es: seq<Dpc>)
    requires |q| <= DEPTH
    ensures q <= EnqueuedAll(q, es) && |EnqueuedAll(q, es)| == if |q| + |es| < DEPTH then |q| + |es| else DEPTH
    decreases |es|
  {
    if es != [] {
      EnqueuedKeeps(Enqueued(q, es[0]), es[1..]);
    }
  }

  lemma NothingQueued(q: seq<Dpc>)
    ensures EnqueuedAll(q, []) == q
  {
  }

  lemma PrefixStep(q: seq<Dpc>, q1: seq<Dpc>, done: seq<Dpc>, rest: seq<Dpc>)
    requires q != [] && q[1..] <= q1 && q1 <= done + rest
    ensures q <= [q[0]] + done + rest
  {
    assert [q[0]] + done + rest == [q[0]] + (done + rest);
    assert q == [q[0]] + q[1..];
  }

  /** Entries are processed in the order they were accepted, at most 8 in one drain, and
      fewer only if the queue ran empty, whatever the routines queue meanwhile. */
  lemma {:induction false} DrainIsFifo(q: seq<Dpc>, n: nat, i: nat, effects: (nat, Dpc) -> seq<Dpc>)
    requires |q| <= DEPTH
    ensures var done, rest := Processed(q, n, i, effects), Drained(q, n, i, effects);
      && |done| <= n && |rest| <= DEPTH && q <= done + rest && (|done| < n ==> rest == [])
    decreases n
  {
    hide Processed, Drained, EnqueuedAll;
    DrainStep(q, n, i, effects);
    if n > 0 && q != [] {
      var q1 := EnqueuedAll(q[1..], Effect(effects, i, q[0]));
      EnqueuedKeeps(q[1..], Effect(effects, i, q[0]));
      DrainIsFifo(q1, n - 1, i + 1, effects);
      PrefixStep(q, q1, Processed(q1, n - 1, i + 1, effects), Drained(q1, n - 1, i + 1, effects));
    }
  }

  /** One of the two things that happen to the queue from outside. */
  datatype Op = Queue(e: Dpc) | Drain

  /** What is queued, and how many entries were processed before. */
  datatype Backlog = Backlog(pending: seq<Dpc>, ran: nat) {
    function Done(effects: (nat, Dpc) -> seq<Dpc>): seq<Dpc> {
      Processed(pending, PER_DRAIN, ran, effects)
    }

    function Step(op: Op, effects: (nat, Dpc) -> seq<Dpc>): Backlog {
      if op.Drain? then Backlog(Drained(pending, PER_DRAIN, ran, effects), ran + |Done(effects)|)
      else Backlog(Enqueued(pending, op.e), ran)
    }

    function After(ops: seq<Op>, effects: (nat, Dpc) -> seq<Dpc>): Backlog
      decreases |ops|
    {
      if ops == [] then this else Step(ops[0], effects).After(ops[1..], effects)
    }
  }

  function Drains(ops: seq<Op>): nat {
    if ops == [] then 0 else (if ops[0].Drain? then 1 else 0) + Drains(ops[1..])
  }

  /** The entry at place k is 8 places nearer after every drain. */
  lemma {:induction false} MovesUp(s: Backlog, k: nat, ops: seq<Op>, effects: (nat, Dpc) -> seq<Dpc>)
    requires |s.pending| <= DEPTH && k < |s.pending| && PER_DRAIN * Drains(ops) <= k
    ensures var r, j := s.After(ops, effects).pending, k - PER_DRAIN * Drains(ops);
      j < |r| <= DEPTH && r[j] == s.pending[k]
    decreases |ops|
  {
    hide Processed, Drained;
    if ops != [] {
      var s1 := s.Step(ops[0], effects);
      if ops[0].Drain? {
        DrainIsFifo(s.pending, PER_DRAIN, s.ran, effects);
        assert (s.Done(effects) + s1.pending)[k] == s.pending[k] && |s.Done(effects)| == PER_DRAIN;
        MovesUp(s1, k - PER_DRAIN, ops[1..], effects);
      } else {
        MovesUp(s1, k, ops[1..], effects);
      }
    }
  }

  /** Whatever is queued meanwhile, an entry that was accepted at place k is processed in the
      drain number k / 8 + 1 that follows. */
  lemma ProcessedInTime(s: Backlog, k: nat, ops: seq<Op>, effects: (nat, Dpc) -> seq<Dpc>)
    requires |s.pending| <= DEPTH && k < |s.pending| && Drains(ops) == k / PER_DRAIN
    ensures var done := s.After(ops, effects).Done(effects);
      k % PER_DRAIN < |done| && done[k % PER_DRAIN] == s.pending[k]
  {
    MovesUp(s, k, ops, effects);
    hide Processed, Drained, Backlog.After;
    var r := s.After(ops, effects);
    DrainIsFifo(r.pending, PER_DRAIN, r.ran, effects);
    assert (r.Done(effects) + r.Step(Drain, effects).pending)[k % PER_DRAIN] == r.pending[k % PER_DRAIN];
  }

  class Dpcs {
    const queue: array<Dpc>
    var head: nat
    var tail: nat
    var count: nat

    ghost function Pending(): seq<Dpc>
      reads this, queue
      requires queue.Length == DEPTH && head < DEPTH && count <= DEPTH
    {
      Held(queue[..], head, count)
    }

    ghost predicate Valid()
      reads this, queue
    {
      queue.Length == DEPTH && head < DEPTH && count <= DEPTH && tail == Slot(head, count, DEPTH)
    }

    /** dpc_queue_init (sched.c:445-449). */
    constructor ()
      ensures Valid() && fresh(queue) && Pending() == []
    {
      queue := new Dpc[DEPTH](_ => Dpc(0, 0, false));
      head, tail, count := 0, 0, 0;
    }

    /** dpc_queue (sched.c:451-458). */
    method Enqueue(e: Dpc)
      requires Valid()
      modifies this`tail, this`count, queue
      ensures Valid() && Pending() == Enqueued(old(Pending()), e)
    {
      if count >= DEPTH {
        return;
      }
      SlotIs(head, count, DEPTH);
      SlotIs(head, count + 1, DEPTH);
      HeldPush(queue[..], head, count, e);
      ghost var a := queue[..];
      queue[tail] := e;
      assert queue[..] == a[tail := e];
      tail := (tail + 1) % DEPTH;
      count := count + 1;
    }

    /** A routine runs: it queues the entries es. */
    method Run(es: seq<Dpc>)
      requires Valid()
      modifies this`tail, this`count, queue
      ensures Valid() && Pending() == EnqueuedAll(old(Pending()), es)
    {
      for i := 0 to |es|
        invariant Valid() && EnqueuedAll(Pending(), es[i..]) == EnqueuedAll(old(Pending()), es)
      {
        assert es[i..][0] == es[i] && es[i..][1..] == es[i + 1..];
        Enqueue(es[i]);
      }
    }

    /** The oldest entry is taken out, and its routine runs, as number i
        (sched.c:463-468). */
    method ProcessOne(i: nat, effects: (nat, Dpc) -> seq<Dpc>) returns (entry: Dpc)
      requires Valid() && count > 0
      modifies this`head, this`tail, this`count, queue
      ensures Valid() && old(Pending()) != [] && entry == old(Pending())[0]
      ensures Pending() == EnqueuedAll(old(Pending())[1..], Effect(effects, i, entry))
    {
      hide EnqueuedAll, Held;
      HeldPop(queue[..], head, count);
      SlotIs(head, count, DEPTH);
      SlotIs(head, 1, DEPTH);
      SlotIs(Slot(head, 1, DEPTH), count - 1, DEPTH);
      entry := queue[head];
      head := (head + 1) % DEPTH;
      count := count - 1;
      if entry.routine != 0 {
        Run(effects(i, entry));
      } else {
        NothingQueued(Pending());
      }
    }

    /** dpc_drain (sched.c:460-471); ran entries were processed before. */
    method DrainSome(ran: nat, effects: (nat, Dpc) -> seq<Dpc>) returns (done: seq<Dpc>)
      requires Valid()
      modifies this`head, this`tail, this`count, queue
      ensures Valid()
      ensures var s := Backlog(old(Pending()), ran);
        done == s.Done(effects) && Pending() == s.Step(Drain, effects).pending
    {
      hide Drained, Processed, EnqueuedAll, Held;
      done := [];
      ghost var q := Pending();
      var processed := 0;
      while count > 0 && processed < PER_DRAIN
        invariant Valid() && processed <= PER_DRAIN
        invariant Drained(q, PER_DRAIN, ran, effects) ==
            Drained(Pending(), PER_DRAIN - processed, ran + processed, effects)
        invariant Processed(q, PER_DRAIN, ran, effects) == done
            + Processed(Pending(), PER_DRAIN - processed, ran + processed, effects)
        decreases PER_DRAIN - processed
      {
        DrainStep(Pending(), PER_DRAIN - processed, ran + processed, effects);
        var entry := ProcessOne(ran + processed, effects);
        done := done + [entry];
        processed := processed + 1;
      }
      DrainStep(Pending(), PER_DRAIN - processed, ran + processed, effects);
    }
  }
}

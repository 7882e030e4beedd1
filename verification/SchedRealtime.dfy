/** Bounded waiting of REALTIME threads. */
module SchedRealtime {
  import opened SchedPlaces
  import opened SchedSpec
  import opened SchedSafety
  import opened SchedRuns

  /** The threads in front of t. */
  function Before(q: seq<int>, t: int): seq<int> {
    if q == [] || q[0] == t then [] else [q[0]] + Before(q[1..], t)
  }

  /** The ticks a thread may run before it is preempted. */
  function Share(threads: seq<Tcb>, t: int): nat {
    if 0 <= t < |threads| then Max1(threads[t].slice) else 1
  }

  function Owed(threads: seq<Tcb>, q: seq<int>): nat {
    if q == [] then 0 else Share(threads, q[0]) + Owed(threads, q[1..])
  }

  function Pending(s: St, t: int): nat {
    Owed(s.threads, Before(s.List(Ready(REALTIME)), t))
  }

  /** What the running thread and the threads in front of t in the REALTIME queue may run. */
  function Wait(s: St, t: int): nat {
    Share(s.threads, s.current) + Pending(s, t)
  }

  /** The step puts nothing in front of the REALTIME queue and raises no slice there. */
  ghost predicate Calm(s: St, op: Op)
    requires Allowed(s, op)
  {
    match op
    case DoTick => CalmWake(s.(ticks := s.ticks + 1))
    case DoSweep => CalmSweep(s)
    case DoUnlock(m) =>
      s.mutexes[m].owner == s.current && IsThread(s.Head(Blocked(m))) ==>
        s.threads[s.Head(Blocked(m))].priority < REALTIME
    case DoBoost(t, _) => t != s.current && s.place[t] != Ready(REALTIME)
    case DoDeadline(t, _) => t != s.current && s.place[t] != Ready(REALTIME)
    case _ => true
  }

  /** No sleeper that is due has base priority REALTIME. */
  ghost predicate CalmWake(s: St)
    requires s.Sized()
  {
    forall t {:trigger s.place[t]} | IsThread(t) && s.place[t] == Asleep && s.threads[t].sleepUntil <= s.ticks ::
      s.threads[t].base < REALTIME
  }

  ghost predicate CalmSweep(s: St)
    requires s.Sized()
  {
    forall t {:trigger s.place[t]} | IsThread(t) && (s.place[t] == Ready(LOW) || s.place[t] == Ready(NORMAL))
      && Starving(s, t) ::
      s.threads[t].base < REALTIME
  }

  ghost predicate CalmRun(s: St, ops: seq<Op>)
    requires CanRun(s, ops)
    decreases |ops|
  {
    ops == [] || (Calm(s, ops[0]) && CalmRun(Step(s, ops[0]), ops[1..]))
  }

  lemma {:induction false} BeforeAppend(q: seq<int>, r: seq<int>, t: int)
    requires t in q
    ensures Before(q + r, t) == Before(q, t)
  {
    if q[0] != t {
      assert q == [q[0]] + q[1..];
      BeforeAppend(q[1..], r, t);
      assert (q + r)[1..] == q[1..] + r;
    }
  }

  lemma {:induction false} OwedKept(h: seq<Tcb>, h': seq<Tcb>, q: seq<int>, t: int)
    requires forall x {:trigger x in q} | x in q :: Share(h', x) == Share(h, x)
    ensures Owed(h', Before(q, t)) == Owed(h, Before(q, t))
  {
    if q != [] && q[0] != t {
      assert q[0] in q && forall x :: x in q[1..] ==> x in q;
      OwedKept(h, h', q[1..], t);
    }
  }

  /** The REALTIME queue is unchanged or longer, and its threads have their slices. */
  lemma PendingKept(s: St, due: nat, s': St, r: seq<int>, t: int)
    requires Good(s, due) && s'.Sized() && IsThread(t) && s.place[t] == Ready(REALTIME)
    requires s'.List(Ready(REALTIME)) == s.List(Ready(REALTIME)) + r
    requires forall x {:trigger s'.threads[x]} | IsThread(x) && s.place[x] == Ready(REALTIME) ::
        s'.threads[x].slice == s.threads[x].slice
    ensures Pending(s', t) == Pending(s, t)
  {
    Standing(s, due, Ready(REALTIME));
    var q := s.List(Ready(REALTIME));
    assert t in q;
    hide Good;
    BeforeAppend(q, r, t);
    forall x | x in q ensures Share(s'.threads, x) == Share(s.threads, x) {
      assert IsThread(x) && s.place[x] == Ready(REALTIME);
    }
    OwedKept(s.threads, s'.threads, q, t);
  }

  /** After a yield t runs, or the share of the thread that runs is part of what t waited
      for. */
  lemma YieldWait(s: St, due: nat, t: int)
    requires Between(s, due) && IsThread(t) && s.place[t] == Ready(REALTIME)
    ensures var r := Yield(s); r.current == t || (r.place[t] == Ready(REALTIME) && Wait(r, t) == Pending(s, t))
  {
    Standing(s, due, Ready(REALTIME));
    var h, l := YieldEffect(s, due);
    var r, q := Yield(s), s.List(Ready(REALTIME));
    hide Good, Yield;
    assert l == REALTIME;
    if h != t {
      forall x | x in q[1..] ensures Share(r.threads, x) == Share(s.threads, x) {
      }
      OwedKept(s.threads, r.threads, q[1..], t);
      assert Before(q, t) == [h] + Before(q[1..], t);
    }
  }

  lemma {:induction false} WakeAllQueue(s: St, due: nat)
    requires Good(s, due) && due <= s.ticks && CalmWake(s)
    ensures WakeAll(s).List(Ready(REALTIME)) == s.List(Ready(REALTIME))
    decreases |s.List(Asleep)|
  {
    if HeadDue(s) {
      WakeOneGood(s, due);
      hide Good;
      WakeAllQueue(WakeOne(s), due);
    }
  }

  lemma RescueQueue(s: St, due: nat, l: nat, r: nat)
    requires Good(s, due) && (l == LOW || l == NORMAL) && 0 < r <= |s.List(Ready(l))| && CalmSweep(s)
    ensures var s1 := RescueIf(s, l, |s.List(Ready(l))| - r);
      s1.List(Ready(REALTIME)) == s.List(Ready(REALTIME)) && CalmSweep(s1) && Good(s1, due)
        && r - 1 <= |s1.List(Ready(l))|
  {
    RescueGood(s, due, l, r);
    hide Parted, ThreadsOk, InDueOrder, MutexesOk, Counted, Rescue, Tail;
  }

  lemma {:induction false} SweepLevelQueue(s: St, due: nat, l: nat, r: nat)
    requires Good(s, due) && (l == LOW || l == NORMAL) && r <= |s.List(Ready(l))| && CalmSweep(s)
    ensures var s' := SweepLevel(s, l, r); s'.List(Ready(REALTIME)) == s.List(Ready(REALTIME)) && CalmSweep(s')
    decreases r
  {
    hide Parted, ThreadsOk, InDueOrder, MutexesOk, Counted, RescueIf, CalmSweep;
    if r > 0 {
      RescueQueue(s, due, l, r);
      SweepLevelQueue(RescueIf(s, l, |s.List(Ready(l))| - r), due, l, r - 1);
    }
  }

  lemma SweepWait(s: St, t: int)
    requires Inv(s) && CalmSweep(s) && IsThread(t) && s.place[t] == Ready(REALTIME)
    ensures var r := Sweep(s); r.place[t] == s.place[t] && Wait(r, t) == Wait(s, t)
  {
    if s.ticks % 200 == 0 {
      SweepMovesTheStarving(s, s.ticks);
      SweepQueueIs(s, s.ticks, LOW);
      SweepLevelQueue(s, s.ticks, LOW, |s.List(Ready(LOW))|);
      var s1 := SweepQueue(s, LOW);
      SweepLevelQueue(s1, s.ticks, NORMAL, |s1.List(Ready(NORMAL))|);
      hide Good, SweepLevel;
      var r := Sweep(s);
      forall x | IsThread(x) && (s.place[x] == Ready(REALTIME) || x == s.current) ensures r.threads[x] == s.threads[x] {
        assert SweptIf(s, r, x, LOW, NORMAL);
      }
      assert SweptIf(s, r, t, LOW, NORMAL);
      PendingKept(s, s.ticks, r, [], t);
    }
  }

  ghost predicate AllKept(s: St, s2: St) {
    && s.Sized() && s2.Sized() && s2.List(Ready(REALTIME)) == s.List(Ready(REALTIME)) && s2.current == s.current
    && forall x {:trigger s2.threads[x]} {:trigger s2.place[x]} | IsThread(x) && s.place[x] != Asleep ::
         s2.threads[x].slice == s.threads[x].slice && s2.place[x] == s.place[x]
  }

  lemma MiddleKept(s: St, s1: St, s2: St)
    requires AllWoken(s.(ticks := s.ticks + 1), s1) && AllWatched(s1, s2)
    requires s1.List(Ready(REALTIME)) == s.List(Ready(REALTIME)) && s1.current == s.current
    requires s2 == s1.(threads := s2.threads, streak := s2.streak)
    ensures AllKept(s, s2)
  {
    forall x {:trigger s2.threads[x]} | IsThread(x) && s.place[x] != Asleep
      ensures s2.threads[x].slice == s.threads[x].slice && s2.place[x] == s.place[x]
    {
      assert WokenIf(s.(ticks := s.ticks + 1), s1, x);
      assert OnlyWatched(s1.threads[x], s2.threads[x]);
    }
  }

  /** Before the last step of a tick, the REALTIME queue and the slices are as they were. */
  lemma TickMiddleKept(s: St) returns (s2: St)
    requires Inv(s) && CalmWake(s.(ticks := s.ticks + 1))
    ensures Good(s2, s2.ticks) && Runs(s2) && Alone(s2, s2.current) && Tick(s) == Expire(s2) && AllKept(s, s2)
  {
    hide Good, Watch, WakeAll, Expire, AllWoken, AllWatched, AllKept, CalmWake;
    TickSteps(s);
    TickOnGood(s);
    WakeAllQueue(s.(ticks := s.ticks + 1), s.ticks);
    var s1 := WakeAll(s.(ticks := s.ticks + 1));
    s2 := Watch(s1, 0);
    MiddleKept(s, s1, s2);
  }

  lemma KeptWait(s: St, s2: St, due: nat, t: int)
    requires Good(s, due) && Runs(s) && AllKept(s, s2) && IsThread(t) && s.place[t] == Ready(REALTIME)
    ensures s2.place[t] == s.place[t] && Wait(s2, t) == Wait(s, t)
  {
    PendingKept(s, due, s2, [], t);
  }

  lemma ExpireWait(s: St, due: nat, t: int)
    requires Good(s, due) && Runs(s) && Alone(s, s.current) && IsThread(t) && s.place[t] == Ready(REALTIME)
    ensures var r := Expire(s); r.current == t || (r.place[t] == Ready(REALTIME) && Wait(r, t) < Wait(s, t))
  {
    assert ThreadOk(s, s.current, due);
    var x := Charged(s.threads[s.current]);
    if x.slice > 0 {
      PendingKept(s, due, s.With(s.current, x), [], t);
    } else {
      RequeuedGood(s, due);
      var r, l := Requeued(s), NextLevel(s.threads[s.current].priority);
      PendingKept(s, due, r, if l == REALTIME then [s.current] else [], t);
      hide Good;
      YieldWait(r, due, t);
    }
  }

  lemma TickWait(s: St, t: int)
    requires Inv(s) && CalmWake(s.(ticks := s.ticks + 1)) && IsThread(t) && s.place[t] == Ready(REALTIME)
    ensures var r := Tick(s); r.current == t || (r.place[t] == Ready(REALTIME) && Wait(r, t) < Wait(s, t))
  {
    var s2 := TickMiddleKept(s);
    KeptWait(s, s2, s.ticks, t);
    hide Good, Expire, Tick, Wait;
    ExpireWait(s2, s2.ticks, t);
  }

  lemma SleepWait(s: St, ms: nat, t: int)
    requires Inv(s) && s.current != s.idle && IsThread(t) && s.place[t] == Ready(REALTIME)
    ensures var r := Sleep(s, ms); r.current == t || (r.place[t] == Ready(REALTIME) && Wait(r, t) < Wait(s, t))
  {
    FallAsleepGood(s, ms);
    PendingKept(s, s.ticks, FallAsleep(s, ms), [], t);
    hide Good;
    YieldWait(FallAsleep(s, ms), s.ticks, t);
  }

  lemma ExitWait(s: St, t: int)
    requires Inv(s) && Allowed(s, DoExit) && IsThread(t) && s.place[t] == Ready(REALTIME)
    ensures var r := Exit(s); r.current == t || (r.place[t] == Ready(REALTIME) && Wait(r, t) < Wait(s, t))
  {
    LeavingGood(s);
    PendingKept(s, s.ticks, Leaving(s), [], t);
    hide Good;
    YieldWait(Leaving(s), s.ticks, t);
  }

  lemma LockWait(s: St, m: nat, t: int)
    requires Inv(s) && Allowed(s, DoLock(m)) && IsThread(t) && s.place[t] == Ready(REALTIME)
    ensures var r := Lock(s, m); r.current == t || (r.place[t] == Ready(REALTIME) && Wait(r, t) <= Wait(s, t))
  {
    if s.mutexes[m].locked != 0 {
      InheritGood(s, s.ticks, s.mutexes[m].owner);
      WaitingGood(s, m);
      var r := Waiting(Inherit(s, s.mutexes[m].owner), m);
      PendingKept(s, s.ticks, r, [], t);
      hide Good;
      YieldWait(r, s.ticks, t);
    }
  }

  lemma UnlockWait(s: St, m: nat, t: int)
    requires Inv(s) && Allowed(s, DoUnlock(m)) && Calm(s, DoUnlock(m)) && IsThread(t) && s.place[t] == Ready(REALTIME)
    ensures var r := Unlock(s, m); r.place[t] == Ready(REALTIME) && Wait(r, t) <= Wait(s, t)
  {
    if s.mutexes[m].owner == s.current {
      RestoredGood(s, s.ticks);
      var s1, r := Restored(s), Unlock(s, m);
      Standing(s1, s.ticks, Blocked(m));
      if IsThread(s1.Head(Blocked(m))) {
        HandOverGood(s1, s.ticks, m);
      }
      PendingKept(s, s.ticks, r, [], t);
    }
  }

  lemma CreateWait(s: St, p: nat, t: int)
    requires Inv(s) && Allowed(s, DoCreate(p)) && IsThread(t) && s.place[t] == Ready(REALTIME)
    ensures var r := Create(s, p); r.place[t] == Ready(REALTIME) && Wait(r, t) == Wait(s, t)
  {
    CreateFails(s, s.ticks);
    var n := FreeSlot(s, 0);
    if IsThread(n) {
      var q := s.List(Ready(p));
      assert Insert(q, |q|, n) == q + [n];
      PendingKept(s, s.ticks, Create(s, p), if p == REALTIME then [n] else [], t);
    }
  }

  lemma FieldsWait(s: St, x: int, y: Tcb, t: int)
    requires Inv(s) && IsThread(x) && x != s.current && s.place[x] != Ready(REALTIME) && IsThread(t)
        && s.place[t] == Ready(REALTIME)
    ensures Wait(s.With(x, y), t) == Wait(s, t)
  {
    PendingKept(s, s.ticks, s.With(x, y), [], t);
  }

  /** One step: t runs, or waits on; then a tick brings it nearer, and nothing sets it back. */
  lemma WaitStep(s: St, op: Op, t: int)
    requires Inv(s) && Allowed(s, op) && Calm(s, op) && IsThread(t) && s.place[t] == Ready(REALTIME)
    ensures var r := Step(s, op);
      r.current == t || (r.place[t] == Ready(REALTIME) && Wait(r, t) + (if op.DoTick? then 1 else 0) <= Wait(s, t))
  {
    hide Inv, Wait, Tick, Sweep, Sleep, Exit, Lock, Unlock, Create, CalmWake, CalmSweep;
    match op
    case DoTick => TickWait(s, t);
    case DoSweep => SweepWait(s, t);
    case DoYield => YieldRunsOn(s);
    case DoSleep(ms) => SleepWait(s, ms, t);
    case DoExit => ExitWait(s, t);
    case DoCreate(p) => CreateWait(s, p, t);
    case DoLock(m) => LockWait(s, m, t);
    case DoUnlock(m) => UnlockWait(s, m, t);
    case DoBoost(x, p) => FieldsWait(s, x, Boost(s, x, p).threads[x], t);
    case DoDeadline(x, ms) => FieldsWait(s, x, SetDeadline(s, x, ms).threads[x], t);
  }

  /** In every run in which nothing is put in front of the REALTIME queue and no slice in it
      is raised, a thread in that queue runs before more ticks have come than the running
      thread and the threads in front of it have left. */
  lemma {:induction false} RealtimeRunsInTime(s: St, ops: seq<Op>, t: int) returns (k: nat)
    requires Inv(s) && CanRun(s, ops) && CalmRun(s, ops) && IsThread(t) && s.place[t] == Ready(REALTIME)
    requires TickCount(ops) >= Wait(s, t)
    ensures k <= |ops| && CanRun(s, ops[..k]) && After(s, ops[..k]).current == t
    decreases |ops|
  {
    hide Inv, Step, Pending, Calm;
    var s1 := Step(s, ops[0]);
    StepInv(s, ops[0]);
    WaitStep(s, ops[0], t);
    if s1.current == t {
      k := 1;
      assert ops[..k][0] == ops[0] && ops[..k][1..] == [];
    } else {
      var j := RealtimeRunsInTime(s1, ops[1..], t);
      k := j + 1;
      assert ops[..k][0] == ops[0] && ops[..k][1..] == ops[1..][..j];
    }
  }
}

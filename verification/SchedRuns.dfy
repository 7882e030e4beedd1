/** What the scheduler guarantees over whole runs. */
module SchedRuns {
  import opened Basics
  import opened SchedPlaces
  import opened SchedSpec
  import opened SchedSafety

  datatype Op =
    | DoTick
    | DoSweep
    | DoYield
    | DoSleep(ms: nat)
    | DoExit
    | DoCreate(priority: nat)
    | DoLock(mutex: nat)
    | DoUnlock(mutex: nat)
    | DoBoost(t: int, priority: nat)
    | DoDeadline(t: int, ms: nat)

  ghost predicate HoldsNone(s: St) {
    forall m {:trigger s.mutexes[m]} | 0 <= m < |s.mutexes| :: s.mutexes[m].owner != s.current
  }

  /** The arguments of the call name a thread or a mutex. */
  predicate Called(s: St, op: Op) {
    && s.Sized() && IsThread(s.current)
    && match op
       case DoLock(m) => m < |s.mutexes|
       case DoUnlock(m) => m < |s.mutexes|
       case DoBoost(t, _) => IsThread(t)
       case DoDeadline(t, _) => IsThread(t)
       case _ => true
  }

  /** The calls that keep the invariant, and no others do (AllowedIff): the idle thread does
      not sleep, block or exit; no thread locks a mutex it holds, or exits while it holds
      one; no live thread gets priority ISR; and sched_yield is not called by a running
      thread while another one is ready. */
  ghost predicate Allowed(s: St, op: Op) {
    && Called(s, op)
    && match op
       case DoTick => true
       case DoSweep => true
       case DoYield => Top(s, REALTIME) < 0
       case DoSleep(_) => s.current != s.idle
       case DoExit => s.current != s.idle && HoldsNone(s)
       case DoCreate(p) => p != ISR || s.count >= MAX_THREADS
       case DoLock(m) => s.mutexes[m].owner != s.current && (s.mutexes[m].locked != 0 ==> s.current != s.idle)
       case DoUnlock(m) => true
       case DoBoost(t, p) => p <= REALTIME || s.place[t].Gone?
       case DoDeadline(t, _) => true
  }

  ghost function Step(s: St, op: Op): (r: St)
    requires Called(s, op)
    ensures r.Sized() && |r.mutexes| == |s.mutexes|
  {
    match op
    case DoTick => Tick(s)
    case DoSweep => Sweep(s)
    case DoYield => Yield(s)
    case DoSleep(ms) => Sleep(s, ms)
    case DoExit => Exit(s)
    case DoCreate(p) => Create(s, p)
    case DoLock(m) => Lock(s, m)
    case DoUnlock(m) => Unlock(s, m)
    case DoBoost(t, p) => Boost(s, t, p)
    case DoDeadline(t, ms) => SetDeadline(s, t, ms)
  }

  ghost predicate CanRun(s: St, ops: seq<Op>)
    decreases |ops|
  {
    ops == [] || (Allowed(s, ops[0]) && CanRun(Step(s, ops[0]), ops[1..]))
  }

  ghost function After(s: St, ops: seq<Op>): (r: St)
    requires CanRun(s, ops)
    ensures s.Sized() ==> r.Sized() && |r.mutexes| == |s.mutexes|
    decreases |ops|
  {
    if ops == [] then s else After(Step(s, ops[0]), ops[1..])
  }

  lemma YieldRunsOn(s: St)
    requires Inv(s) && Top(s, REALTIME) < 0
    ensures Yield(s) == s
  {
    assert ThreadOk(s, s.current, s.ticks);
  }

  lemma StepInv(s: St, op: Op)
    requires Inv(s) && Allowed(s, op)
    ensures Inv(Step(s, op))
  {
    hide Inv;
    match op
    case DoTick => TickInv(s);
    case DoSweep => SweepInv(s);
    case DoYield => YieldRunsOn(s);
    case DoSleep(ms) => SleepInv(s, ms);
    case DoExit => ExitInv(s);
    case DoCreate(p) => CreateInv(s, p);
    case DoLock(m) => LockInv(s, m);
    case DoUnlock(m) => UnlockInv(s, m);
    case DoBoost(t, p) => BoostInv(s, t, p);
    case DoDeadline(t, ms) => SetDeadlineInv(s, t, ms);
  }

  /** The invariant holds after every run. */
  lemma {:induction false} RunInv(s: St, ops: seq<Op>)
    requires Inv(s) && CanRun(s, ops)
    ensures Inv(After(s, ops))
    decreases |ops|
  {
    hide Inv, Step;
    if ops != [] {
      StepInv(s, ops[0]);
      RunInv(Step(s, ops[0]), ops[1..]);
    }
  }

  function FirstLists(mutexes: nat): map<Place, seq<int>> {
    var ready := set l: nat | l < LEVELS :: Ready(l);
    var waits := set m: nat | m < mutexes :: Blocked(m);
    map p | p in ready + waits + {Asleep} :: []
  }

  /** After sched_init, with the idle thread taken off its queue: it runs, in slot 0, and all
      other slots are free (sched.c:127-153). */
  function Start(mutexes: nat, missLimit: nat): St {
    var gone := Tcb(0, Terminated, 0, 0, 0, 0, 0, false, 0, 0, NIL);
    St(seq(MAX_THREADS, i => if i == 0 then Born(1, IDLE).(state := IsRunning) else gone),
       FirstLists(mutexes), seq(MAX_THREADS, i => if i == 0 then Running else Gone),
       seq(mutexes, _ => Mutex(0, NIL)), 0, 0, 0, 2, 1, 0, missLimit)
  }

  lemma FirstListsAre(n: nat)
    ensures forall p {:trigger p in FirstLists(n)} :: p in FirstLists(n) <==> IsList(n, p)
    ensures forall p {:trigger FirstLists(n)[p]} | p in FirstLists(n) :: FirstLists(n)[p] == []
  {
    forall p ensures p in FirstLists(n) <==> IsList(n, p) {
      if IsList(n, p) {
        match p
        case Ready(l) => assert p in (set l: nat | l < LEVELS :: Ready(l));
        case Blocked(m) => assert p in (set m: nat | m < n :: Blocked(m));
        case _ =>
      }
    }
  }

  lemma StartInv(mutexes: nat, missLimit: nat)
    ensures Inv(Start(mutexes, missLimit))
  {
    FirstListsAre(mutexes);
    hide FirstLists;
    var s := Start(mutexes, missLimit);
    assert Live(s.place) == {0};
    forall p | p in s.lists ensures Members(s.lists, s.place, p) {
    }
    forall t | IsThread(t) ensures Placed(s.lists, s.place, t) && ThreadOk(s, t, 0) {
    }
    forall m: nat | m < mutexes ensures MutexOk(s, m) {
    }
  }

  // ---------------------------------------------------------------- one place each

  /** Every live thread is in exactly one place, the one its state names: it is the current
      thread, or in one of the five queues that are served, or in the sleep list, or in the
      wait list of one mutex; and no list holds a thread twice. */
  lemma OnePlaceEach(s: St, t: int)
    requires Inv(s) && IsThread(t)
    ensures s.threads[t].state.IsRunning? <==> t == s.current
    ensures s.threads[t].state.IsReady? ==> exists l: nat :: l <= REALTIME && t in s.List(Ready(l))
    ensures s.threads[t].state.IsSleeping? <==> t in s.List(Asleep)
    ensures s.threads[t].state.IsBlocked? <==> exists m: nat :: m < |s.mutexes| && t in s.List(Blocked(m))
    ensures forall l: nat {:trigger s.List(Ready(l))} | t in s.List(Ready(l)) :: s.threads[t].state.IsReady?
    ensures forall p, q {:trigger s.List(p), s.List(q)} :: t in s.List(p) && t in s.List(q) ==> p == q
    ensures forall p {:trigger s.List(p)} :: Distinct(s.List(p))
  {
    assert ThreadOk(s, t, s.ticks) && Placed(s.lists, s.place, t);
    var n := |s.mutexes|;
    hide ThreadsOk, InDueOrder, MutexesOk, Counted;
    forall p ensures Distinct(s.List(p)) && (t in s.List(p) ==> s.place[t] == p) {
      if IsList(n, p) {
        Standing(s, s.ticks, p);
      } else {
        assert p !in s.lists;
      }
    }
    if IsList(n, s.place[t]) {
      Standing(s, s.ticks, s.place[t]);
      assert s.place[t].Ready? ==> t in s.List(Ready(s.place[t].level));
      assert s.place[t].Blocked? ==> t in s.List(Blocked(s.place[t].mutex));
    }
  }

  /** Creation fails exactly when all slots hold live threads; else the new thread has a
      fresh tid, stands at the back of the queue of its priority, and nothing else changes. */
  lemma CreateUsesAFreeSlot(s: St, priority: nat)
    requires Inv(s)
    ensures var t, r, p := FreeSlot(s, 0), Create(s, priority), if priority >= LEVELS then NORMAL else priority;
      if forall x | IsThread(x) :: !s.place[x].Gone? then t == NIL && r == s
      else && IsThread(t) && s.place[t].Gone? && r.place == s.place[t := Ready(p)]
           && r.List(Ready(p)) == s.List(Ready(p)) + [t]
           && r.threads == s.threads[t := Born(s.nextTid, p)] && r.current == s.current
  {
    CreateFails(s, s.ticks);
    FreeSlotIs(s, 0);
    AllLive(s.place);
    AtMost(s.place);
    hide FreeSlot, Live;
    var p := if priority >= LEVELS then NORMAL else priority;
    var q := s.List(Ready(p));
    assert Insert(q, |q|, FreeSlot(s, 0)) == q + [FreeSlot(s, 0)];
  }

  // ---------------------------------------------------------------- what a yield does

  /** The thread h picked by sched_yield is the only one whose place or fields change. */
  lemma YieldEffect(s: St, due: nat) returns (h: int, l: nat)
    requires Between(s, due)
    ensures IsThread(h) && l <= REALTIME && s.place[h] == Ready(l) && s.List(Ready(l)) != [] && h == s.List(Ready(l))[0]
    ensures var r := Yield(s);
      && r == s.(threads := r.threads, place := s.place[h := Running], lists := r.lists, current := h)
      && r.threads == s.threads[h := s.threads[h].(state := IsRunning, lastRun := s.ticks)]
      && r.List(Ready(l)) == s.List(Ready(l))[1..]
      && forall p {:trigger r.List(p)} | p != Ready(l) :: r.List(p) == s.List(p)
    ensures forall y | IsThread(y) && s.place[y].Ready? :: s.place[y].level <= l
  {
    YieldPicks(s, due);
    l := Top(s, REALTIME);
    h := s.Head(Ready(l));
    hide Good, Top;
    TookGood(s, due, Ready(l), 0);
    assert Cut(s.List(Ready(l)), 0) == s.List(Ready(l))[1..];
  }

  // ---------------------------------------------------------------- sleepers

  /** What a tick does to thread t before its last step. */
  lemma TickMiddle(s: St, t: int) returns (s2: St)
    requires Inv(s) && IsThread(t)
    ensures Good(s2, s2.ticks) && Runs(s2) && Alone(s2, s2.current) && Tick(s) == Expire(s2)
    ensures s2.ticks == s.ticks + 1 && s2.current == s.current && s2.mutexes == s.mutexes
    ensures if s.place[t] == Asleep && s.threads[t].sleepUntil <= s.ticks + 1
            then s2.place[t] == Ready(WokenTcb(s.threads[t]).priority)
              && OnlyWatched(WokenTcb(s.threads[t]), s2.threads[t])
            else s2.place[t] == s.place[t] && OnlyWatched(s.threads[t], s2.threads[t])
  {
    hide Good, Watch, WakeAll, Expire;
    TickSteps(s);
    var s0 := s.(ticks := s.ticks + 1);
    var s1 := WakeAll(s0);
    s2 := Watch(s1, 0);
    assert WokenIf(s0, s1, t);
    assert OnlyWatched(s1.threads[t], s2.threads[t]);
  }

  /** The end of a slice never lowers a priority: below NORMAL the thread goes one up, and
      else step 4 leaves all priorities. */
  lemma SliceEndRaises(s: St, due: nat, t: int)
    requires Good(s, due) && Runs(s) && Alone(s, s.current) && IsThread(t)
    ensures var x := s.threads[t];
      Expire(s).threads[t].priority ==
        if t == s.current && x.slice <= 1 && x.priority < NORMAL then x.priority + 1 else x.priority
  {
    assert ThreadOk(s, s.current, due);
    if Charged(s.threads[s.current]).slice == 0 {
      RequeuedGood(s, due);
      hide Good;
      var h, l := YieldEffect(Requeued(s), due);
    }
  }

  /** So a tick raises the running thread exactly when its slice ends and its priority is
      below NORMAL, and lowers it only as a REALTIME thread that is found to be late. */
  lemma TickPriority(s: St)
    requires Inv(s)
    ensures var x, p := s.threads[s.current], Tick(s).threads[s.current].priority;
      && (x.slice <= 1 && x.priority < NORMAL ==> p == x.priority + 1)
      && (!(x.slice <= 1 && x.priority < NORMAL) ==>
          p == x.priority || (p == HIGH && x.priority == REALTIME && FoundLate(s, x)))
  {
    assert ThreadOk(s, s.current, s.ticks);
    TickSteps(s);
    var s2 := Watch(WakeAll(s.(ticks := s.ticks + 1)), 0);
    CurrentWatched(s);
    SliceEndRaises(s2, s2.ticks, s.current);
    hide Good, Tick, Expire, Watch, WakeAll;
  }

  /** The next tick is the first one to find that thread x is past its deadline. */
  predicate FoundLate(s: St, x: Tcb) {
    x.deadline != 0 && x.deadline < s.ticks + 1 && !x.missed
  }

  /** What the watchdog may do to the running thread. */
  lemma CurrentWatched(s: St)
    requires Inv(s)
    ensures var s2, x := Watch(WakeAll(s.(ticks := s.ticks + 1)), 0), s.threads[s.current];
      && Tick(s) == Expire(s2) && s2.current == s.current
      && OnlyWatched(x, s2.threads[s.current])
      && (s2.threads[s.current].priority != x.priority ==> FoundLate(s, x))
  {
    hide Good, WakeAll, Watch;
    TickSteps(s);
    var s1 := WakeAll(s.(ticks := s.ticks + 1));
    assert WokenIf(s.(ticks := s.ticks + 1), s1, s.current);
    hide AllWoken, AllWatched, Alone;
    OneWatched(s1, s.current);
  }

  lemma OneWatched(s: St, t: int)
    requires s.Sized() && IsThread(t)
    ensures var x, y := s.threads[t], Watch(s, 0).threads[t];
      && OnlyWatched(x, y)
      && (y.priority != x.priority ==> x.deadline != 0 && x.deadline < s.ticks && !x.missed)
  {
    WatchMarks(s, 0);
    hide Watch;
    assert WatchedRight(s, Watch(s, 0), t);
  }

  /** A thread that waits outside the ready queues is not touched by step 4; one that is
      ready stays ready or runs. */
  lemma ExpireOthers(s: St, due: nat, t: int)
    requires Good(s, due) && Runs(s) && Alone(s, s.current) && IsThread(t) && t != s.current
    ensures var r := Expire(s);
      && r.Sized() && r.ticks == s.ticks && r.mutexes == s.mutexes
      && (s.place[t].Ready? ==> r.place[t].Ready? || r.place[t].Running?)
      && (!s.place[t].Ready? ==> r.place[t] == s.place[t] && r.threads[t] == s.threads[t])
  {
    if Charged(s.threads[s.current]).slice == 0 {
      RequeuedGood(s, due);
      hide Good;
      var h, l := YieldEffect(Requeued(s), due);
    }
  }

  /** One step of a sleeper: a tick that reaches its due time wakes it, and nothing else
      does. */
  lemma SleeperStep(s: St, op: Op, t: int)
    requires Inv(s) && Allowed(s, op) && IsThread(t) && s.place[t] == Asleep
    ensures var r := Step(s, op);
      if op.DoTick? && s.threads[t].sleepUntil <= s.ticks + 1 then r.place[t].Ready? || r.place[t].Running?
      else r.place[t] == Asleep && r.threads[t].sleepUntil == s.threads[t].sleepUntil
  {
    if op.DoTick? {
      var s2 := TickMiddle(s, t);
      hide Inv, Good;
      ExpireOthers(s2, s2.ticks, t);
    } else {
      WaiterKept(s, op, t);
    }
  }

  /** Only a tick moves a sleeper, and only an unlock moves a thread blocked on a mutex. */
  lemma WaiterKept(s: St, op: Op, t: int)
    requires Inv(s) && Allowed(s, op) && IsThread(t) && !op.DoTick?
    requires s.place[t].Asleep? || (s.place[t].Blocked? && !op.DoUnlock?)
    ensures Step(s, op).place[t] == s.place[t] && Step(s, op).threads[t].sleepUntil == s.threads[t].sleepUntil
  {
    match op
    case DoSweep =>
      if s.ticks % 200 == 0 {
        SweepMovesTheStarving(s, s.ticks);
        assert SweptIf(s, Sweep(s), t, LOW, NORMAL);
      }
    case DoYield => YieldRunsOn(s);
    case DoSleep(ms) =>
      FallAsleepGood(s, ms);
      var h, l := YieldEffect(FallAsleep(s, ms), s.ticks);
    case DoExit =>
      LeavingGood(s);
      var h, l := YieldEffect(Leaving(s), s.ticks);
    case DoCreate(p) =>
      CreateFails(s, s.ticks);
    case DoLock(m) => LockOthers(s, m, t);
    case DoUnlock(m) => UnlockOthers(s, m, t);
    case DoBoost(_, _) =>
    case DoDeadline(_, _) =>
  }

  lemma LockOthers(s: St, m: nat, t: int)
    requires Inv(s) && Allowed(s, DoLock(m)) && IsThread(t) && t != s.current && !s.place[t].Ready?
    ensures Lock(s, m).place[t] == s.place[t] && Lock(s, m).threads[t].sleepUntil == s.threads[t].sleepUntil
  {
    if s.mutexes[m].locked != 0 {
      WaitingGood(s, m);
      hide Good;
      var h, l := YieldEffect(Waiting(Inherit(s, s.mutexes[m].owner), m), s.ticks);
    }
  }

  lemma UnlockOthers(s: St, m: nat, t: int)
    requires Inv(s) && Allowed(s, DoUnlock(m)) && IsThread(t) && t != s.current && s.place[t] != Blocked(m)
    ensures Unlock(s, m).place[t] == s.place[t] && Unlock(s, m).threads[t].sleepUntil == s.threads[t].sleepUntil
  {
    if s.mutexes[m].owner == s.current {
      RestoredGood(s, s.ticks);
      var s1 := Restored(s);
      Standing(s1, s.ticks, Blocked(m));
      hide Good;
      if IsThread(s1.Head(Blocked(m))) {
        HandOverGood(s1, s.ticks, m);
      }
    }
  }

  function TickCount(ops: seq<Op>): nat {
    if ops == [] then 0 else (if ops[0].DoTick? then 1 else 0) + TickCount(ops[1..])
  }

  lemma StepTicks(s: St, op: Op)
    requires Inv(s) && Allowed(s, op)
    ensures Step(s, op).ticks == s.ticks + if op.DoTick? then 1 else 0
  {
  }

  lemma {:induction false} RunTicks(s: St, ops: seq<Op>)
    requires Inv(s) && CanRun(s, ops)
    ensures After(s, ops).ticks == s.ticks + TickCount(ops)
    decreases |ops|
  {
    hide Inv, Step;
    if ops != [] {
      StepInv(s, ops[0]);
      StepTicks(s, ops[0]);
      RunTicks(Step(s, ops[0]), ops[1..]);
    }
  }

  lemma {:induction false} SleepsThrough(s: St, t: int, ops: seq<Op>)
    requires Inv(s) && CanRun(s, ops) && IsThread(t) && s.place[t] == Asleep
    requires ops == [] || s.ticks + TickCount(ops) < s.threads[t].sleepUntil || TickCount(ops) == 0
    ensures After(s, ops).place[t] == Asleep && After(s, ops).threads[t].sleepUntil == s.threads[t].sleepUntil
    decreases |ops|
  {
    hide Inv, Step;
    if ops != [] {
      StepInv(s, ops[0]);
      StepTicks(s, ops[0]);
      SleeperStep(s, ops[0], t);
      SleepsThrough(Step(s, ops[0]), t, ops[1..]);
    }
  }

  function Max1(ms: nat): nat {
    if ms > 1 then ms else 1
  }

  /** Sleep is exact: over every run, a thread that goes to sleep for ms ticks is asleep
      until max(ms, 1) ticks have come, and the tick that completes them makes it ready (and
      perhaps runs it at once). */
  lemma SleepIsExact(s: St, ms: nat, ops: seq<Op>)
    requires Inv(s) && s.current != s.idle && CanRun(Sleep(s, ms), ops) && TickCount(ops) < Max1(ms)
    ensures var r := After(Sleep(s, ms), ops);
      && r.Sized() && IsThread(s.current) && r.place[s.current] == Asleep
      && (TickCount(ops) + 1 == Max1(ms) ==>
            Allowed(r, DoTick) && (Tick(r).place[s.current].Ready? || Tick(r).place[s.current].Running?))
  {
    FallAsleepGood(s, ms);
    var h, l := YieldEffect(FallAsleep(s, ms), s.ticks);
    SleepInv(s, ms);
    hide Good, TickCount;
    var s1, t := Sleep(s, ms), s.current;
    assert s1.place[t] == Asleep && s1.threads[t].sleepUntil == s1.ticks + ms;
    hide Sleep;
    SleepsThrough(s1, t, ops);
    RunInv(s1, ops);
    RunTicks(s1, ops);
    SleeperStep(After(s1, ops), DoTick, t);
  }

  // ---------------------------------------------------------------- time slices

  /** While ticks are all that happens, the running thread keeps running for its slice,
      whoever is woken meanwhile. */
  lemma {:induction false} RunsItsSlice(s: St, ops: seq<Op>)
    requires Inv(s) && CanRun(s, ops) && forall i | 0 <= i < |ops| :: ops[i].DoTick?
    requires |ops| < Max1(s.threads[s.current].slice)
    ensures After(s, ops).current == s.current
    decreases |ops|
  {
    if ops != [] {
      var s2 := TickMiddle(s, s.current);
      assert s2.threads[s2.current].state == IsRunning by {
        assert ThreadOk(s2, s2.current, s2.ticks);
      }
      TickInv(s);
      hide Inv, Good;
      assert Step(s, ops[0]) == Expire(s2);
      RunsItsSlice(Step(s, ops[0]), ops[1..]);
    }
  }

  /** The tick that ends a slice puts the thread at the back of a queue with a fresh slice.
      It runs on only if every other ready thread is in a lower queue. */
  lemma SliceEnds(s: St) returns (l: nat)
    requires Inv(s) && s.threads[s.current].slice <= 1
    ensures l == NextLevel(s.threads[s.current].priority) || l == HIGH
    ensures var r, t := Tick(s), s.current;
      && r.threads[t].slice == Quantum(l)
      && (r.current != t ==> r.place[t] == Ready(l) && t == At(r.List(Ready(l)), |r.List(Ready(l))| - 1))
      && (r.current == t ==> forall y | IsThread(y) && r.place[y].Ready? :: r.place[y].level < l)
  {
    var t := s.current;
    var s2 := TickMiddle(s, t);
    CurrentOk(s2, s2.ticks);
    l := NextLevel(s2.threads[t].priority);
    SliceEndsAt(s2);
  }

  lemma SliceEndsAt(s: St)
    requires Good(s, s.ticks) && Runs(s) && Alone(s, s.current) && s.threads[s.current].slice <= 1
    ensures var r, t, l := Expire(s), s.current, NextLevel(s.threads[s.current].priority);
      && r.threads[t].slice == Quantum(l)
      && (r.current != t ==> r.place[t] == Ready(l) && t == At(r.List(Ready(l)), |r.List(Ready(l))| - 1))
      && (r.current == t ==> forall y | IsThread(y) && r.place[y].Ready? :: r.place[y].level < l)
  {
    var t, l, s1 := s.current, NextLevel(s.threads[s.current].priority), Requeued(s);
    CurrentOk(s, s.ticks);
    RequeuedGood(s, s.ticks);
    hide Good, Requeued, NextLevel;
    AfterRequeue(s1, s.List(Ready(l)), t, l);
  }

  /** The yield after thread t was put at the back of queue l. */
  lemma AfterRequeue(s1: St, q: seq<int>, t: int, l: nat)
    requires s1.Sized() && Between(s1, s1.ticks) && IsThread(t) && l <= REALTIME && s1.place[t] == Ready(l)
        && s1.List(Ready(l)) == q + [t]
    ensures var r := Yield(s1);
      && r.threads[t].slice == s1.threads[t].slice
      && (r.current != t ==> r.place[t] == Ready(l) && t == At(r.List(Ready(l)), |r.List(Ready(l))| - 1))
      && (r.current == t ==> forall y | IsThread(y) && r.place[y].Ready? :: r.place[y].level < l)
  {
    hide Good, Alone;
    var h, top := YieldEffect(s1, s1.ticks);
    hide Yield;
    if h == t {
      AloneInQueue(s1, s1.ticks, q, l, t);
    } else if top == l {
      assert q != [];
      assert (q + [t])[1..] == q[1..] + [t];
    }
  }

  /** A thread that is first and last of its queue is alone in it. */
  lemma AloneInQueue(s: St, due: nat, q: seq<int>, l: nat, t: int)
    requires Good(s, due) && l < LEVELS && s.List(Ready(l)) == q + [t] && (q + [t])[0] == t
    ensures forall y | IsThread(y) && s.place[y] == Ready(l) :: y == t
  {
    Standing(s, due, Ready(l));
    if q != [] {
      FirstIsNotLast(q, t);
    }
  }

  lemma FirstIsNotLast(q: seq<int>, t: int)
    requires Distinct(q + [t]) && q != []
    ensures (q + [t])[0] != t
  {
    assert (q + [t])[|q|] == t;
  }

  // ---------------------------------------------------------------- mutexes

  /** kmutex_unlock by the owner hands the mutex to the first waiter, which becomes ready, so
      that the mutex is not free in between; with no waiter it becomes free. By any other
      thread it does nothing (sched.c:506-527). */
  lemma UnlockHandsOver(s: St, m: nat)
    requires Inv(s) && m < |s.mutexes|
    ensures var q := s.List(Blocked(m)); var r := Unlock(s, m);
      if s.mutexes[m].owner != s.current then r == s
      else if q == [] then r.mutexes == s.mutexes[m := Mutex(0, NIL)] && r.place == s.place
      else && IsThread(q[0]) && r.mutexes == s.mutexes[m := Mutex(s.threads[q[0]].tid, q[0])] && s.threads[q[0]].tid > 0
           && r.List(Blocked(m)) == q[1..] && r.place[q[0]].Ready? && r.Head(r.place[q[0]]) == q[0]
           && r.place == s.place[q[0] := r.place[q[0]]]
  {
    if s.mutexes[m].owner == s.current {
      RestoredGood(s, s.ticks);
      var s1, q := Restored(s), s.List(Blocked(m));
      Standing(s1, s.ticks, Blocked(m));
      if q != [] {
        assert ThreadOk(s, q[0], s.ticks);
        hide Good;
        HandOverGood(s1, s.ticks, m);
        assert Cut(q, 0) == q[1..];
      }
    }
  }

  /** kmutex_lock takes a free mutex at once; else the caller waits in front of the others
      (sched.c:487-503). */
  lemma LockTakesOrWaits(s: St, m: nat)
    requires Inv(s) && Allowed(s, DoLock(m))
    ensures var r := Lock(s, m); var t := s.current;
      if s.mutexes[m].locked == 0 then r.mutexes == s.mutexes[m := Mutex(s.threads[t].tid, t)] && r.current == t
      else r.mutexes == s.mutexes && r.List(Blocked(m)) == [t] + s.List(Blocked(m)) && r.current != t
           && IsThread(s.mutexes[m].owner)
           && r.threads[s.mutexes[m].owner].priority >= s.threads[t].priority
  {
    FreeIff(s, s.ticks, m);
    if s.mutexes[m].locked != 0 {
      WaitsInFront(s, m);
    }
  }

  lemma WaitsInFront(s: St, m: nat)
    requires Inv(s) && Allowed(s, DoLock(m)) && s.mutexes[m].locked != 0
    ensures var r, o := Lock(s, m), s.mutexes[m].owner;
      && r.List(Blocked(m)) == [s.current] + s.List(Blocked(m)) && r.current != s.current
      && IsThread(o) && r.threads[o].priority >= s.threads[s.current].priority
  {
    var o := s.mutexes[m].owner;
    FreeIff(s, s.ticks, m);
    InheritGood(s, s.ticks, o);
    WaitingGood(s, m);
    hide Good;
    var s1 := Waiting(Inherit(s, o), m);
    InheritRaises(s, o);
    assert s1.List(Blocked(m)) == [s.current] + s.List(Blocked(m));
    hide Waiting, Inherit;
    var h, l := YieldEffect(s1, s.ticks);
  }

  lemma InheritRaises(s: St, o: int)
    requires s.Sized() && IsThread(s.current) && IsThread(o)
    ensures Inherit(s, o).threads[o].priority >= s.threads[s.current].priority
  {
  }

  /** An owner stays the owner until it unlocks. */
  lemma OwnerStep(s: St, op: Op, m: nat)
    requires Inv(s) && Allowed(s, op) && m < |s.mutexes| && s.mutexes[m].owner != NIL
    requires op.DoUnlock? && op.mutex == m ==> s.mutexes[m].owner != s.current
    ensures |Step(s, op).mutexes| == |s.mutexes| && Step(s, op).mutexes[m].owner == s.mutexes[m].owner
  {
    match op
    case DoTick =>
    case DoSweep =>
      if s.ticks % 200 == 0 {
        SweepMovesTheStarving(s, s.ticks);
      }
    case DoYield => YieldRunsOn(s);
    case DoSleep(ms) =>
      FallAsleepGood(s, ms);
      var h, l := YieldEffect(FallAsleep(s, ms), s.ticks);
    case DoExit =>
      LeavingGood(s);
      var h, l := YieldEffect(Leaving(s), s.ticks);
    case DoCreate(_) =>
    case DoLock(n) =>
      FreeIff(s, s.ticks, m);
      LockTakesOrWaits(s, n);
    case DoUnlock(n) => UnlockHandsOver(s, n);
    case DoBoost(_, _) =>
    case DoDeadline(_, _) =>
  }

  /** A blocked thread stays blocked on its mutex until it is made the owner of it. */
  lemma BlockedStep(s: St, op: Op, t: int, m: nat)
    requires Inv(s) && Allowed(s, op) && IsThread(t) && m < |s.mutexes| && s.place[t] == Blocked(m)
    ensures |Step(s, op).mutexes| == |s.mutexes|
    ensures Step(s, op).place[t] == Blocked(m) || (op == DoUnlock(m) && Step(s, op).mutexes[m].owner == t)
  {
    assert MutexOk(s, m);
    Standing(s, s.ticks, Blocked(m));
    if op.DoTick? {
      var s2 := TickMiddle(s, t);
      hide Inv, Good;
      ExpireOthers(s2, s2.ticks, t);
    } else if op == DoUnlock(m) {
      UnlockHandsOver(s, m);
      OwnerUnlock(s, op, m);
    } else if op.DoUnlock? {
      UnlockOthers(s, op.mutex, t);
      OwnerStep(s, op, m);
    } else {
      WaiterKept(s, op, t);
      OwnerStep(s, op, m);
    }
  }

  lemma OwnerUnlock(s: St, op: Op, m: nat)
    requires Inv(s) && Allowed(s, op) && op == DoUnlock(m)
    ensures |Step(s, op).mutexes| == |s.mutexes|
  {
    UnlockHandsOver(s, m);
  }

  /** No waiter is lost: over every run, a thread that is blocked on a mutex and later is not
      was its owner on the way. */
  lemma {:induction false} WaiterBecomesOwner(s: St, ops: seq<Op>, t: int, m: nat) returns (k: nat)
    requires Inv(s) && CanRun(s, ops) && IsThread(t) && m < |s.mutexes| && s.place[t] == Blocked(m)
    requires After(s, ops).Sized() && After(s, ops).place[t] != Blocked(m)
    ensures k <= |ops| && CanRun(s, ops[..k]) && m < |After(s, ops[..k]).mutexes|
        && After(s, ops[..k]).mutexes[m].owner == t
    decreases |ops|
  {
    hide Inv, Step;
    var s1 := Step(s, ops[0]);
    StepInv(s, ops[0]);
    BlockedStep(s, ops[0], t, m);
    if s1.place[t] == Blocked(m) {
      var j := WaiterBecomesOwner(s1, ops[1..], t, m);
      k := j + 1;
      assert ops[..k][0] == ops[0] && ops[..k][1..] == ops[1..][..j];
    } else {
      k := 1;
      assert ops[..k][0] == ops[0] && ops[..k][1..] == [];
    }
  }
}

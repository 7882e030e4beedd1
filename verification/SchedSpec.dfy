/** The scheduler of kernel/sched/sched.c as a state machine on lists of threads. What the
    linked structure does with next, prev, heads and tails is in Sched.dfy. */
module SchedSpec {
  import opened SchedPlaces

  const IDLE := 0
  const LOW := 1
  const NORMAL := 2
  const HIGH := 3
  const REALTIME := 4
  const ISR := 5

  datatype ThreadState = Embryo | IsReady | IsRunning | IsBlocked | IsSleeping | Terminated

  /** A control block without its links. */
  datatype Tcb = Tcb(tid: nat, state: ThreadState, priority: nat, base: nat, slice: nat, sleepUntil: nat,
                     deadline: nat, missed: bool, lastRun: nat, cpuTicks: nat, blockedOn: int)

  datatype Mutex = Mutex(locked: nat, owner: int)

  /** RTOS_QUANTA (sched.h:55-68). */
  function Quantum(priority: nat): nat {
    match priority
    case 0 => 200
    case 1 => 20
    case 2 => 10
    case 3 => 4
    case 4 => 1
    case _ => 0
  }

  datatype St = St(threads: seq<Tcb>, lists: map<Place, seq<int>>, place: seq<Place>, mutexes: seq<Mutex>,
                   current: int, idle: int, ticks: nat, nextTid: nat, count: nat, streak: nat, missLimit: nat)
  {
    predicate Sized() {
      |threads| == MAX_THREADS && |place| == MAX_THREADS
    }

    function List(p: Place): seq<int> {
      if p in lists then lists[p] else []
    }

    function Head(p: Place): int {
      At(List(p), 0)
    }

    function With(t: int, x: Tcb): St
      requires Sized() && IsThread(t)
    {
      this.(threads := threads[t := x])
    }

    /** List p becomes q, and thread t goes to another place. */
    function Moved(p: Place, q: seq<int>, t: int, to: Place): St
      requires Sized() && IsThread(t)
    {
      this.(lists := lists[p := q], place := place[t := to])
    }

    function Took(p: Place, k: nat): St
      requires Sized() && k < |List(p)| && IsThread(List(p)[k])
    {
      Moved(p, Cut(List(p), k), List(p)[k], Limbo)
    }

    function Put(p: Place, k: nat, t: int): St
      requires Sized() && IsThread(t) && k <= |List(p)|
    {
      Moved(p, Insert(List(p), k, t), t, p)
    }

    function Back(l: nat, t: int): St
      requires Sized() && IsThread(t)
    {
      Put(Ready(l), |List(Ready(l))|, t)
    }

    function Front(l: nat, t: int): St
      requires Sized() && IsThread(t)
    {
      Put(Ready(l), 0, t)
    }
  }

  // ---------------------------------------------------------------- sched_yield

  /** The highest of queues n..0 that is not empty, or -1 (sched.c:365-368). */
  function Top(s: St, n: int): int
    requires n >= -1
    decreases n
  {
    if n < 0 then -1 else if s.Head(Ready(n)) != NIL then n else Top(s, n - 1)
  }

  function Dispatched(s: St, t: int): St
    requires s.Sized() && IsThread(t)
  {
    s.(threads := s.threads[t := s.threads[t].(state := IsRunning, lastRun := s.ticks)], place := s.place[t := Running],
       current := t)
  }

  /** sched_yield (sched.c:359-384). With all queues empty a running thread runs on, and any
      other one gives way to the idle thread. */
  function Yield(s: St): (r: St)
    requires s.Sized()
    ensures r.Sized() && r.mutexes == s.mutexes && r.ticks == s.ticks
  {
    var l := Top(s, REALTIME);
    if l >= 0 && IsThread(s.Head(Ready(l))) then Dispatched(s.Took(Ready(l), 0), s.Head(Ready(l)))
    else if StillRuns(s) || !IsThread(s.idle) then s
    else Dispatched(s, s.idle)
  }

  /** The running thread was not put elsewhere before the yield. */
  predicate StillRuns(s: St)
    requires s.Sized()
  {
    IsThread(s.current) && s.threads[s.current].state == IsRunning
  }

  // ---------------------------------------------------------------- sched_sleep

  function Due(s: St, t: int): nat {
    if 0 <= t < |s.threads| then s.threads[t].sleepUntil else 0
  }

  /** Where a thread due at tick u goes in the sleep list: behind all that are due no later
      (sched.c:243-255). */
  function SleepIndex(s: St, q: seq<int>, u: nat): (k: nat)
    ensures k <= |q|
  {
    if q == [] || u < Due(s, q[0]) then 0 else 1 + SleepIndex(s, q[1..], u)
  }

  /** The running thread goes to sleep, before the yield. */
  function FallAsleep(s: St, ms: nat): St
    requires s.Sized() && IsThread(s.current)
  {
    var u := s.ticks + ms;
    s.With(s.current, s.threads[s.current].(state := IsSleeping, sleepUntil := u))
     .Put(Asleep, SleepIndex(s, s.List(Asleep), u), s.current)
  }

  function Sleep(s: St, ms: nat): St
    requires s.Sized() && IsThread(s.current)
  {
    Yield(FallAsleep(s, ms))
  }

  // ---------------------------------------------------------------- sched_tick

  /** The first sleeper wakes with at least priority HIGH, and is queued in front
      (sched.c:269-278). */
  function WakeOne(s: St): St
    requires s.Sized() && IsThread(s.Head(Asleep))
  {
    var t := s.Head(Asleep);
    var x := s.threads[t];
    var boost := if x.base < HIGH then HIGH else x.base;
    s.Took(Asleep, 0).With(t, x.(state := IsReady, priority := boost, slice := Quantum(boost))).Front(boost, t)
  }

  predicate HeadDue(s: St) {
    IsThread(s.Head(Asleep)) && Due(s, s.Head(Asleep)) <= s.ticks
  }

  /** Step 1 of sched_tick (sched.c:268-279). */
  function WakeAll(s: St): (r: St)
    requires s.Sized()
    ensures r.Sized() && r.current == s.current && r.ticks == s.ticks && r.mutexes == s.mutexes
    decreases |s.List(Asleep)|
  {
    if HeadDue(s) then WakeAll(WakeOne(s)) else s
  }

  /** The watchdog looks at one thread (sched.c:540-560). */
  function Watched(s: St, i: int): St
    requires s.Sized() && IsThread(i)
  {
    var x := s.threads[i];
    if x.state == Terminated || x.priority < REALTIME || x.deadline == 0 then s
    else if s.ticks > x.deadline && !x.missed then
      if s.streak + 1 >= s.missLimit then s.With(i, x.(missed := true, priority := HIGH)).(streak := 0)
      else s.With(i, x.(missed := true)).(streak := s.streak + 1)
    else if s.ticks <= x.deadline then s.With(i, x.(missed := false)).(streak := 0)
    else s
  }

  /** Step 3: threads i and on. */
  function Watch(s: St, i: nat): (r: St)
    requires s.Sized() && i <= MAX_THREADS
    ensures r.Sized() && r.current == s.current && r.mutexes == s.mutexes && r.ticks == s.ticks
    decreases MAX_THREADS - i
  {
    if i == MAX_THREADS then s else Watch(Watched(s, i), i + 1)
  }

  /** The queue a thread of priority p goes to when its slice is used up
      (sched.c:291-329): threads below NORMAL go one priority number up. */
  function NextLevel(p: nat): nat {
    if p >= REALTIME then REALTIME else if p >= HIGH then HIGH else if p < HIGH - 1 then p + 1 else p
  }

  function Charged(x: Tcb): Tcb {
    x.(cpuTicks := x.cpuTicks + 1, slice := if x.slice > 0 then x.slice - 1 else 0)
  }

  /** The running thread, its slice used up, is queued again, before the yield. */
  function Requeued(s: St): St
    requires s.Sized() && IsThread(s.current)
  {
    var x := s.threads[s.current];
    var l := NextLevel(x.priority);
    var y := Charged(x).(slice := Quantum(l), priority := if x.priority < HIGH then l else x.priority);
    s.With(s.current, y.(state := IsReady))
     .Back(l, s.current)
  }

  /** Step 4 (sched.c:288-334). */
  function Expire(s: St): (r: St)
    requires s.Sized() && IsThread(s.current)
    ensures r.Sized() && r.mutexes == s.mutexes && r.ticks == s.ticks
  {
    if s.threads[s.current].state != IsRunning then s
    else if Charged(s.threads[s.current]).slice > 0 then s.With(s.current, Charged(s.threads[s.current]))
    else Yield(Requeued(s))
  }

  /** sched_tick up to its step 4. The routines that dpc_drain calls are taken not to touch
      the scheduler. */
  function Tick(s: St): (r: St)
    requires s.Sized() && IsThread(s.current)
    ensures r.Sized() && r.mutexes == s.mutexes && r.ticks == s.ticks + 1
  {
    Expire(Watch(WakeAll(s.(ticks := s.ticks + 1)), 0))
  }

  predicate Starving(s: St, t: int)
    requires s.Sized() && IsThread(t)
  {
    s.ticks - s.threads[t].lastRun > 500
  }

  /** A starving thread moves from place k of queue l to the front of the queue of its base
      priority (sched.c:344-347). */
  function Rescue(s: St, l: nat, k: nat): St
    requires s.Sized() && k < |s.List(Ready(l))| && IsThread(s.List(Ready(l))[k])
  {
    var t := s.List(Ready(l))[k];
    var x := s.threads[t];
    s.Took(Ready(l), k).With(t, x.(priority := x.base, slice := Quantum(x.base))).Front(x.base, t)
  }

  function RescueIf(s: St, l: nat, k: nat): St
    requires s.Sized() && k < |s.List(Ready(l))|
  {
    if IsThread(s.List(Ready(l))[k]) && Starving(s, s.List(Ready(l))[k]) then Rescue(s, l, k) else s
  }

  /** The last r threads of queue l are looked at, front to back (sched.c:339-350). */
  function SweepLevel(s: St, l: nat, r: nat): (s': St)
    requires s.Sized() && r <= |s.List(Ready(l))|
    ensures s'.Sized() && s'.current == s.current && s'.ticks == s.ticks && s'.mutexes == s.mutexes
    decreases r
  {
    if r == 0 then s else SweepLevel(RescueIf(s, l, |s.List(Ready(l))| - r), l, r - 1)
  }

  function SweepQueue(s: St, l: nat): (s': St)
    requires s.Sized()
    ensures s'.Sized() && s'.current == s.current && s'.ticks == s.ticks && s'.mutexes == s.mutexes
  {
    SweepLevel(s, l, |s.List(Ready(l))|)
  }

  /** Step 5 of sched_tick. It runs after the switch of step 4, when the thread that was
      switched away from runs again (sched.c:337-352). */
  function Sweep(s: St): St
    requires s.Sized()
  {
    if s.ticks % 200 == 0 then SweepQueue(SweepQueue(s, LOW), NORMAL) else s
  }

  // ---------------------------------------------------------------- creation and exit

  /** The first slot from i on whose thread is gone, or NIL (sched.c:169-177). */
  function FreeSlot(s: St, i: nat): int
    requires s.Sized() && i <= MAX_THREADS
    decreases MAX_THREADS - i
  {
    if i == MAX_THREADS then NIL
    else if s.threads[i].state == Terminated || s.threads[i].state == Embryo then i
    else FreeSlot(s, i + 1)
  }

  function Born(tid: nat, priority: nat): Tcb {
    Tcb(tid, IsReady, priority, priority, Quantum(priority), 0, 0, false, 0, 0, NIL)
  }

  /** The slot of a new thread, before it is queued. */
  function Filled(s: St, t: int, x: Tcb): St
    requires s.Sized() && IsThread(t)
  {
    s.(threads := s.threads[t := x], place := s.place[t := Limbo], nextTid := s.nextTid + 1, count := s.count + 1)
  }

  /** sched_create_named_kthread (sched.c:163-230). */
  function Create(s: St, priority: nat): St
    requires s.Sized()
  {
    var p := if priority >= LEVELS then NORMAL else priority;
    var t := FreeSlot(s, 0);
    if s.count >= MAX_THREADS || !IsThread(t) then s
    else Filled(s, t, Born(s.nextTid, p)).Back(p, t)
  }

  /** sched_exit before the yield (sched.c:390-396). */
  function Leaving(s: St): St
    requires s.Sized() && IsThread(s.current)
  {
    s.(threads := s.threads[s.current := s.threads[s.current].(state := Terminated)],
       place := s.place[s.current := Gone],
       count := if s.count > 0 then s.count - 1 else 0)
  }

  function Exit(s: St): St
    requires s.Sized() && IsThread(s.current)
  {
    Yield(Leaving(s))
  }

  // ---------------------------------------------------------------- mutexes

  /** The owner inherits the priority of the running thread (sched.c:494-496). */
  function Inherit(s: St, o: int): St
    requires s.Sized() && IsThread(s.current)
  {
    if IsThread(o) && s.threads[o].priority < s.threads[s.current].priority then
      s.With(o, s.threads[o].(priority := s.threads[s.current].priority))
    else s
  }

  /** The running thread waits for mutex m, before the yield (sched.c:499-502). */
  function Waiting(s: St, m: nat): St
    requires s.Sized() && IsThread(s.current) && m < |s.mutexes|
  {
    s.With(s.current, s.threads[s.current].(blockedOn := s.mutexes[m].owner, state := IsBlocked))
     .Put(Blocked(m), 0, s.current)
  }

  /** kmutex_lock (sched.c:484-504). */
  function Lock(s: St, m: nat): St
    requires s.Sized() && IsThread(s.current) && m < |s.mutexes|
  {
    if s.mutexes[m].locked == 0 then s.(mutexes := s.mutexes[m := Mutex(s.threads[s.current].tid, s.current)])
    else Yield(Waiting(Inherit(s, s.mutexes[m].owner), m))
  }

  function Restored(s: St): St
    requires s.Sized() && IsThread(s.current)
  {
    s.With(s.current, s.threads[s.current].(priority := s.threads[s.current].base))
  }

  /** The first waiter of mutex m gets it (sched.c:515-522). */
  function HandOver(s: St, m: nat): St
    requires s.Sized() && m < |s.mutexes| && IsThread(s.Head(Blocked(m)))
  {
    var t := s.Head(Blocked(m));
    var x := s.threads[t];
    s.Took(Blocked(m), 0).With(t, x.(blockedOn := NIL, state := IsReady)).(mutexes := s.mutexes[m := Mutex(x.tid, t)])
     .Front(x.priority, t)
  }

  /** kmutex_unlock (sched.c:506-527). */
  function Unlock(s: St, m: nat): St
    requires s.Sized() && IsThread(s.current) && m < |s.mutexes|
  {
    if s.mutexes[m].owner != s.current then s
    else
      var s1 := Restored(s);
      if IsThread(s1.Head(Blocked(m))) then HandOver(s1, m) else s1.(mutexes := s1.mutexes[m := Mutex(0, NIL)])
  }

  // ---------------------------------------------------------------- priorities

  /** rtos_boost (sched.c:420-426). */
  function Boost(s: St, t: int, priority: nat): St
    requires s.Sized() && IsThread(t)
  {
    if priority > s.threads[t].priority then
      s.With(t, s.threads[t].(priority := priority, slice := Quantum(priority)))
    else s
  }

  /** rtos_set_deadline (sched.c:432-439). */
  function SetDeadline(s: St, t: int, ms: nat): St
    requires s.Sized() && IsThread(t)
  {
    s.With(t, s.threads[t].(deadline := s.ticks + ms, missed := false, priority := REALTIME,
                            slice := Quantum(REALTIME)))
  }

  // ---------------------------------------------------------------- what always holds

  predicate Fits(st: ThreadState, p: Place) {
    match p
    case Gone => st.Terminated?
    case Running => st.IsRunning?
    case Limbo => !st.Terminated? && !st.Embryo?
    case Ready(_) => st.IsReady?
    case Asleep => st.IsSleeping?
    case Blocked(_) => st.IsBlocked?
  }

  /** The state of a thread is that of its place; a live thread has a priority that is
      served; a sleeper is not due before tick due. */
  predicate ThreadOk(s: St, t: int, due: nat)
    requires s.Sized() && IsThread(t)
  {
    var x, p := s.threads[t], s.place[t];
    && Fits(x.state, p)
    && (!p.Gone? ==> x.priority <= REALTIME && x.base <= REALTIME && x.tid > 0 && x.lastRun <= s.ticks)
    && (p.Ready? ==> p.level <= REALTIME)
    && (p.Asleep? ==> x.sleepUntil >= due)
  }

  ghost predicate ThreadsOk(s: St, due: nat) {
    s.Sized() && forall t {:trigger ThreadOk(s, t, due)} | IsThread(t) :: ThreadOk(s, t, due)
  }

  ghost predicate InOrder(s: St, q: seq<int>) {
    forall i, j {:trigger q[i], q[j]} | 0 <= i < j < |q| :: Due(s, q[i]) <= Due(s, q[j])
  }

  ghost predicate InDueOrder(s: St) {
    InOrder(s, s.List(Asleep))
  }

  /** A mutex is free with no one waiting, or its owner is a live thread that does not wait
      for it. */
  predicate MutexOk(s: St, m: nat)
    requires s.Sized() && m < |s.mutexes|
  {
    var x := s.mutexes[m];
    if x.owner == NIL then x.locked == 0 && s.List(Blocked(m)) == []
    else
      && IsThread(x.owner) && !s.place[x.owner].Gone? && s.place[x.owner] != Blocked(m)
      && x.locked == s.threads[x.owner].tid
  }

  ghost predicate MutexesOk(s: St) {
    s.Sized() && forall m: nat {:trigger MutexOk(s, m)} | m < |s.mutexes| :: MutexOk(s, m)
  }

  ghost function Live(place: seq<Place>): set<int> {
    set t | 0 <= t < |place| && !place[t].Gone?
  }

  ghost predicate Parted(s: St) {
    Partition(s.lists, s.place, |s.mutexes|)
  }

  predicate IdleOk(s: St) {
    && IsThread(s.idle) && |s.place| == MAX_THREADS
    && (s.place[s.idle].Running? || s.place[s.idle].Ready? || s.place[s.idle].Limbo?)
  }

  ghost predicate Counted(s: St) {
    s.count == |Live(s.place)| && s.nextTid > 0
  }

  /** What holds at every step, whoever runs. */
  ghost predicate Good(s: St, due: nat) {
    && s.Sized() && Parted(s) && ThreadsOk(s, due) && InDueOrder(s) && MutexesOk(s) && IdleOk(s) && Counted(s)
  }

  /** No thread but c runs, and none is between two lists. */
  ghost predicate Alone(s: St, c: int) {
    forall t {:trigger s.place[t]} | 0 <= t < |s.place| :: !s.place[t].Limbo? && (s.place[t].Running? ==> t == c)
  }

  predicate Runs(s: St) {
    IsThread(s.current) && |s.place| == MAX_THREADS && s.place[s.current] == Running
  }

  /** Between two calls: exactly one thread runs, it is the current one, and every other
      thread is gone, ready in one queue, asleep, or blocked on one mutex, as its state says. */
  ghost predicate Inv(s: St) {
    Good(s, s.ticks) && Runs(s) && Alone(s, s.current)
  }
}

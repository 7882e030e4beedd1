/** kernel/sched/sched.c: the scheduler on its linked lists refines the state machine of
    SchedSpec.

    A control block is split in two: threads[t] has its fields, links[t] its next and prev. In
    the same way mutexes[m] has the lock and the owner of a KMutex, and waiters[m] the head of
    its wait list. */
module Sched {
  import opened SchedPlaces
  import opened SchedLinks
  import opened SchedSpec
  import opened SchedSafety
  import SchedRuns
  import SchedLimits

  class Scheduler {
    var threads: seq<Tcb>
    var links: seq<Link>
    var queues: seq<Queue>
    var sleepQ: int
    var mutexes: seq<Mutex>
    var waiters: seq<int>
    var current: int
    var idle: int
    var ticks: nat
    var nextTid: nat
    var count: nat
    var streak: nat
    var missLimit: nat

    /** The threads of each list in order, and the place of each thread. */
    ghost var lists: map<Place, seq<int>>
    ghost var place: seq<Place>

    ghost function Abs(): St
      reads this
    {
      St(threads, lists, place, mutexes, current, idle, ticks, nextTid, count, streak, missLimit)
    }

    ghost function C(): Chains
      reads this`links, this`queues, this`sleepQ, this`waiters
    {
      Chains(links, queues, sleepQ, waiters)
    }

    ghost predicate Lists()
      reads this`threads, this`links, this`queues, this`sleepQ, this`waiters, this`lists, this`place, this`mutexes
    {
      |threads| == MAX_THREADS && |waiters| == |mutexes| && Linked(C(), lists, place)
    }

    ghost predicate Valid()
      reads this
    {
      Lists() && Inv(Abs())
    }

    // -------------------------------------------------------------- queue helpers

    /** queue_push_back (sched.c:68-77). */
    method PushBack(l: nat, t: int)
      requires Lists() && l < LEVELS && IsThread(t) && |place| == MAX_THREADS && Outside(place[t])
      modifies this`links, this`queues, this`lists, this`place
      ensures Lists() && Abs() == old(Abs()).Back(l, t)
    {
      hide Linked, Insert;
      ghost var c := C();
      PushBackLinked(c, lists, place, l, t);
      var u := queues[l];
      links := links[t := Link(NIL, u.tail)];
      if u.tail != NIL {
        links := links[u.tail := links[u.tail].(next := t)];
      } else {
        u := u.(head := t);
      }
      queues := queues[l := u.(tail := t)];
      lists, place := lists[Ready(l) := Insert(lists[Ready(l)], |lists[Ready(l)]|, t)], place[t := Ready(l)];
      assert C() == PushedBack(c, l, t);
    }

    /** queue_push_front (sched.c:79-88). */
    method PushFront(l: nat, t: int)
      requires Lists() && l < LEVELS && IsThread(t) && |place| == MAX_THREADS && Outside(place[t])
      modifies this`links, this`queues, this`lists, this`place
      ensures Lists() && Abs() == old(Abs()).Front(l, t)
    {
      hide Linked, Insert;
      ghost var c := C();
      PushFrontLinked(c, lists, place, l, t);
      var u := queues[l];
      links := links[t := Link(u.head, NIL)];
      if u.head != NIL {
        links := links[u.head := links[u.head].(prev := t)];
      } else {
        u := u.(tail := t);
      }
      queues := queues[l := u.(head := t)];
      lists, place := lists[Ready(l) := Insert(lists[Ready(l)], 0, t)], place[t := Ready(l)];
      assert C() == PushedFront(c, l, t);
    }

    /** queue_pop_front (sched.c:90-102). */
    method PopFront(l: nat) returns (t: int)
      requires Lists() && l < LEVELS
      modifies this`links, this`queues, this`lists, this`place
      ensures Lists() && |old(place)| == MAX_THREADS && t == old(Abs()).Head(Ready(l))
      ensures if t == NIL then Abs() == old(Abs())
              else IsThread(t) && old(Abs()).List(Ready(l)) != [] && Abs() == old(Abs()).Took(Ready(l), 0)
    {
      hide Linked, Cut;
      ghost var c := C();
      QueueIs(c, lists, place, l);
      t := queues[l].head;
      if t == NIL {
        PlacesSized(c, lists, place);
        return;
      }
      RemoveLinked(c, lists, place, l, 0);
      var u := queues[l].(head := links[t].next);
      if u.head != NIL {
        links := links[u.head := links[u.head].(prev := NIL)];
      } else {
        u := u.(tail := NIL);
      }
      queues := queues[l := u];
      links := links[t := CLEAR];
      lists, place := lists[Ready(l) := Cut(lists[Ready(l)], 0)], place[t := Limbo];
      assert C() == Removed(c, l, t);
    }

    /** queue_remove (sched.c:104-111) of the thread at place k of queue l. */
    method Remove(l: nat, t: int, ghost k: nat)
      requires Lists() && l < LEVELS && k < |Abs().List(Ready(l))| && t == Abs().List(Ready(l))[k] && IsThread(t)
      modifies this`links, this`queues, this`lists, this`place
      ensures Lists() && |old(place)| == MAX_THREADS && Abs() == old(Abs()).Took(Ready(l), k)
    {
      hide Linked, Cut;
      ghost var c := C();
      RemoveLinked(c, lists, place, l, k);
      hide Removed;
      RemovedIs(c, l, t);
      var u, x := queues[l], links[t];
      if x.prev != NIL {
        links := links[x.prev := links[x.prev].(next := x.next)];
      } else {
        u := u.(head := x.next);
      }
      if x.next != NIL {
        links := links[x.next := links[x.next].(prev := x.prev)];
      } else {
        u := u.(tail := x.prev);
      }
      queues := queues[l := u];
      links := links[t := CLEAR];
      lists, place := lists[Ready(l) := Cut(lists[Ready(l)], k)], place[t := Limbo];
      assert C() == Removed(c, l, t);
    }

    // -------------------------------------------------------------- sched_yield

    /** The search for the next thread (sched.c:363-368). */
    method PopHighest() returns (next: int)
      requires Lists()
      modifies this`links, this`queues, this`lists, this`place
      ensures Lists() && |old(place)| == MAX_THREADS
      ensures var s := old(Abs()); var l := Top(s, REALTIME);
        if l < 0 then next == NIL && Abs() == s
        else IsThread(next) && next == s.Head(Ready(l)) && s.List(Ready(l)) != [] && Abs() == s.Took(Ready(l), 0)
    {
      hide Top, Linked;
      ghost var s := Abs();
      next := NIL;
      var l := REALTIME;
      PlacesSized(C(), lists, place);
      while next == NIL && l >= 0
        invariant -1 <= l <= REALTIME && Lists()
        invariant if next == NIL then Abs() == s && Top(s, REALTIME) == Top(s, l)
                  else l >= 0 && l == Top(s, REALTIME) && next == s.Head(Ready(l)) && IsThread(next)
                       && s.List(Ready(l)) != [] && Abs() == s.Took(Ready(l), 0)
        decreases l, if next == NIL then 1 else 0
      {
        TopStep(s, l);
        next := PopFront(l);
        if next == NIL {
          l := l - 1;
        }
      }
      TopStep(s, -1);
    }

    /** sched_yield (sched.c:359-384). The lists stay linked unless the idle thread has to
        run while it stands in one. */
    method Yield()
      requires Lists() && IsThread(current) && IsThread(idle) && |place| == MAX_THREADS
      modifies this`links, this`queues, this`lists, this`place, this`threads, this`current
      ensures Abs() == SchedSpec.Yield(old(Abs()))
      ensures Top(old(Abs()), REALTIME) >= 0 || StillRuns(old(Abs())) || Outside(old(place[idle])) ==> Lists()
    {
      hide Top, Linked;
      ghost var s := Abs();
      var next := PopHighest();
      if next == NIL {
        if threads[current].state == IsRunning {
          return;
        }
        next := idle;
      }
      threads := threads[next := threads[next].(state := IsRunning, lastRun := ticks)];
      if Outside(place[next]) {
        Shifted(C(), lists, place, next, Running);
      }
      place := place[next := Running];
      current := next;
    }

    // -------------------------------------------------------------- sched_sleep

    /** The loop that looks for the thread to sleep behind (sched.c:248-252). */
    method SleepBehind(u: nat) returns (cur: int, ghost k: nat)
      requires Lists() && sleepQ != NIL && |place| == MAX_THREADS
      requires Asleep in lists && lists[Asleep] != [] && sleepQ == lists[Asleep][0] && IsThread(sleepQ)
          && threads[sleepQ].sleepUntil <= u
      ensures 1 <= k <= |lists[Asleep]| && cur == lists[Asleep][k - 1] && IsThread(cur)
      ensures k == SleepIndex(Abs(), lists[Asleep], u) && C().links[cur].next == At(lists[Asleep], k)
    {
      hide Linked;
      ghost var q := lists[Asleep];
      SleepListIs(C(), lists, place);
      cur := sleepQ;
      k := 1;
      while links[cur].next != NIL && threads[links[cur].next].sleepUntil <= u
        invariant 1 <= k <= |q| && cur == q[k - 1]
        invariant SleepIndex(Abs(), q, u) == k + SleepIndex(Abs(), q[k..], u)
        decreases |q| - k
      {
        cur := links[cur].next;
        k := k + 1;
        assert q[k - 1..][1..] == q[k..];
      }
    }

    /** The sorted insertion of sched_sleep (sched.c:243-255). */
    method SleepInsert()
      requires Lists() && IsThread(current) && |place| == MAX_THREADS && Outside(place[current])
      modifies this`links, this`sleepQ, this`lists, this`place
      ensures Lists()
      ensures var s := old(Abs());
        Abs() == s.Put(Asleep, SleepIndex(s, s.List(Asleep), s.threads[s.current].sleepUntil), s.current)
    {
      hide Linked, Insert;
      ghost var c, s := C(), Abs();
      SleepHead(c, lists, place);
      ghost var q, u := lists[Asleep], threads[current].sleepUntil;
      ghost var k := 0;
      if sleepQ == NIL || threads[current].sleepUntil < threads[sleepQ].sleepUntil {
        SleptLinked(c, lists, place, 0, current);
        links := links[current := links[current].(next := sleepQ)];
        sleepQ := current;
      } else {
        var cur;
        cur, k := SleepBehind(threads[current].sleepUntil);
        hide SleepIndex;
        SleptLinked(c, lists, place, k, current);
        links := links[current := links[current].(next := links[cur].next)];
        links := links[cur := links[cur].(next := current)];
      }
      lists, place := lists[Asleep := Insert(q, k, current)], place[current := Asleep];
      assert C() == Slept(c, At(q, k as int - 1), current);
    }

    /** sched_sleep (sched.c:236-258). */
    method Sleep(milliseconds: nat)
      requires Valid()
      modifies this
      ensures Abs() == SchedSpec.Sleep(old(Abs()), milliseconds)
      ensures Valid() <==> SchedRuns.Allowed(old(Abs()), SchedRuns.DoSleep(milliseconds))
    {
      ghost var s := Abs();
      SchedLimits.SleepSettles(s, milliseconds);
      IdleIsThread(s, s.ticks);
      hide Good, Linked, Top, SchedRuns.Allowed, Alone;
      threads := threads[current := threads[current].(state := IsSleeping)];
      threads := threads[current := threads[current].(sleepUntil := ticks + milliseconds)];
      SleepersKept(s, Abs());
      SleepIndexSame(s, Abs(), s.List(Asleep), ticks + milliseconds);
      SleepInsert();
      assert Abs() == FallAsleep(s, milliseconds);
      Yield();
    }

    // -------------------------------------------------------------- sched_tick

    /** The first sleeper is taken off the sleep list (sched.c:269-271). */
    method SleepPop() returns (t: int)
      requires Lists() && sleepQ != NIL
      modifies this`links, this`sleepQ, this`lists, this`place
      ensures Lists() && |old(place)| == MAX_THREADS && old(Abs()).List(Asleep) != [] && IsThread(t)
      ensures t == old(Abs()).Head(Asleep) && Abs() == old(Abs()).Took(Asleep, 0)
    {
      hide Linked, Cut;
      ghost var c := C();
      SleepListIs(c, lists, place);
      WokenLinked(c, lists, place);
      t := sleepQ;
      sleepQ := links[sleepQ].next;
      links := links[t := links[t].(next := NIL)];
      lists, place := lists[Asleep := Cut(lists[Asleep], 0)], place[t := Limbo];
      assert C() == WokenFirst(c);
    }

    /** One round of the wake-up loop (sched.c:269-278). */
    method WakeFirst(ghost due: nat)
      requires Lists() && Good(Abs(), due) && HeadDue(Abs()) && sleepQ != NIL
      modifies this`threads, this`links, this`queues, this`sleepQ, this`lists, this`place
      ensures Lists() && |old(threads)| == MAX_THREADS && |old(place)| == MAX_THREADS && Abs() == WakeOne(old(Abs()))
    {
      hide Linked, Parted, ThreadsOk, InDueOrder, MutexesOk, Counted, Insert, Cut;
      ghost var s := Abs();
      WakeOneGood(s, due);
      var woken := SleepPop();
      BaseServed(s, due, woken);
      threads := threads[woken := threads[woken].(state := IsReady)];
      var boost := threads[woken].base;
      if boost < HIGH {
        boost := HIGH;
      }
      threads := threads[woken := threads[woken].(priority := boost)];
      threads := threads[woken := threads[woken].(slice := Quantum(boost))];
      PushFront(boost, woken);
    }

    /** Step 1: wake sleeping threads (sched.c:267-279). */
    method WakeDue(ghost due: nat)
      requires Lists() && Good(Abs(), due)
      modifies this`threads, this`links, this`queues, this`sleepQ, this`lists, this`place
      ensures Lists() && Abs() == WakeAll(old(Abs()))
    {
      hide Linked, WakeAll, WakeOne, Parted, ThreadsOk, InDueOrder, MutexesOk, Counted;
      ghost var s := Abs();
      SleepListIs(C(), lists, place);
      while sleepQ != NIL && threads[sleepQ].sleepUntil <= ticks
        invariant Lists() && Good(Abs(), due) && WakeAll(Abs()) == WakeAll(s)
        invariant sleepQ == Abs().Head(Asleep) && -1 <= sleepQ < MAX_THREADS
        decreases |Abs().List(Asleep)|
      {
        WakeOneGood(Abs(), due);
        WakeAllStep(Abs());
        WakeFirst(due);
        SleepListIs(C(), lists, place);
      }
      WakeAllStep(Abs());
    }

    /** rtos_watchdog_tick (sched.c:538-561). */
    method WatchdogTick()
      requires |threads| == MAX_THREADS && |place| == MAX_THREADS
      modifies this`threads, this`streak
      ensures |threads| == MAX_THREADS && Abs() == Watch(old(Abs()), 0)
    {
      ghost var s := Abs();
      hide Watch;
      for i := 0 to MAX_THREADS
        invariant |threads| == MAX_THREADS && Watch(Abs(), i) == Watch(s, 0)
      {
        ghost var s1 := Abs();
        WatchStep(s1, i);
        var x := threads[i];
        if x.state == Terminated || x.priority < REALTIME || x.deadline == 0 {
          continue;
        }
        if ticks > x.deadline && !x.missed {
          threads := threads[i := threads[i].(missed := true)];
          streak := streak + 1;
          if streak >= missLimit {
            threads := threads[i := threads[i].(priority := HIGH)];
            streak := 0;
          }
        } else if ticks <= x.deadline {
          threads := threads[i := threads[i].(missed := false)];
          streak := 0;
        }
        assert Abs() == Watched(s1, i);
      }
      WatchStep(Abs(), MAX_THREADS);
    }

    /** The current thread, its slice used up, goes to the back of a queue
        (sched.c:297-300, 309-312, 322-330). */
    method Requeue(ghost due: nat, ghost s: St)
      requires Lists() && Good(s, due) && Runs(s) && Abs() == s.With(s.current, Charged(s.threads[s.current]))
      modifies this`links, this`queues, this`lists, this`place, this`threads
      ensures Lists() && Abs() == Requeued(s)
    {
      hide Linked, Insert, Parted, ThreadsOk, InDueOrder, MutexesOk, Counted;
      BaseServed(s, due, current);
      if threads[current].priority >= REALTIME {
        threads := threads[current := threads[current].(slice := Quantum(REALTIME), state := IsReady)];
        PushBack(REALTIME, current);
      } else if threads[current].priority >= HIGH {
        threads := threads[current := threads[current].(slice := Quantum(HIGH), state := IsReady)];
        PushBack(HIGH, current);
      } else {
        if threads[current].priority < HIGH - 1 {
          threads := threads[current := threads[current].(priority := threads[current].priority + 1)];
        }
        threads := threads[current := threads[current].(slice := Quantum(threads[current].priority), state := IsReady)];
        PushBack(threads[current].priority, current);
      }
    }

    /** Step 4: preempt the current thread if its quantum is used up (sched.c:287-334). */
    method Preempt(ghost due: nat)
      requires Lists() && Good(Abs(), due) && Runs(Abs()) && Alone(Abs(), current)
      modifies this`links, this`queues, this`lists, this`place, this`threads, this`current
      ensures Lists() && Abs() == Expire(old(Abs()))
    {
      ghost var s := Abs();
      CurrentRuns(s, due);
      RequeuedGood(s, due);
      hide Linked, Good, Requeued, NextLevel;
      threads := threads[current := threads[current].(cpuTicks := threads[current].cpuTicks + 1)];
      if threads[current].slice > 0 {
        threads := threads[current := threads[current].(slice := threads[current].slice - 1)];
      }
      assert threads == s.threads[current := Charged(s.threads[current])];
      if threads[current].slice == 0 {
        Requeue(due, s);
        YieldPicks(Abs(), due);
        IdleIsThread(Abs(), due);
        Yield();
      }
    }

    /** sched_tick up to the switch of step 4; dpc_drain in step 2 does not touch this
        state. */
    method Tick()
      requires Valid()
      modifies this
      ensures Valid() && Abs() == SchedSpec.Tick(old(Abs()))
    {
      hide Good, Linked, WakeAll, Watch, Expire, AllWoken, AllWatched, Alone;
      ghost var s := Abs();
      TickInv(s);
      TickSteps(s);
      TickOnGood(s);
      ticks := ticks + 1;
      WakeDue(s.ticks);
      WatchdogTick();
      Preempt(ticks);
    }

    // -------------------------------------------------------------- starvation sweep

    /** A starving thread moves to the queue of its base priority (sched.c:344-347). */
    method RescueThread(l: nat, t: int, ghost k: nat, ghost due: nat)
      requires Lists() && Good(Abs(), due) && l < LEVELS && k < |Abs().List(Ready(l))| && t == Abs().List(Ready(l))[k]
          && IsThread(t)
      modifies this`threads, this`links, this`queues, this`lists, this`place
      ensures Lists() && |old(threads)| == MAX_THREADS && |old(place)| == MAX_THREADS
          && Abs() == Rescue(old(Abs()), l, k)
    {
      hide Linked, Parted, ThreadsOk, InDueOrder, MutexesOk, Counted, Insert, Cut;
      InQueue(Abs(), due, l, k);
      BaseServed(Abs(), due, t);
      Remove(l, t, k);
      threads := threads[t := threads[t].(priority := threads[t].base)];
      threads := threads[t := threads[t].(slice := Quantum(threads[t].priority))];
      PushFront(threads[t].priority, t);
    }

    /** One queue of step 5 (sched.c:339-350). */
    method SweepOne(l: nat, ghost due: nat)
      requires Lists() && Good(Abs(), due) && l < LEVELS
      modifies this`threads, this`links, this`queues, this`lists, this`place
      ensures Lists() && Abs() == SweepQueue(old(Abs()), l)
    {
      hide Linked, Parted, ThreadsOk, InDueOrder, MutexesOk, Counted, SweepLevel, Rescue, RescueIf;
      ghost var s := Abs();
      HeadLink(C(), lists, place, l);
      var t := queues[l].head;
      ghost var r := |s.List(Ready(l))|;
      while t != NIL
        invariant Lists() && Good(Abs(), due) && r <= |Abs().List(Ready(l))| && (r == 0 <==> t == NIL)
        invariant t == At(Abs().List(Ready(l)), |Abs().List(Ready(l))| - r)
        invariant SweepLevel(Abs(), l, r) == SweepQueue(s, l) && ticks == s.ticks
        decreases r
      {
        ghost var k := |Abs().List(Ready(l))| - r;
        NextLink(C(), lists, place, l, k);
        NextInTail(Abs(), due, l, r);
        SweepLevelStep(Abs(), l, r);
        RescueIfIs(Abs(), due, l, k);
        var next := links[t].next;
        if ticks - threads[t].lastRun > 500 {
          RescueThread(l, t, k, due);
        }
        t := next;
        r := r - 1;
      }
      SweepLevelStep(Abs(), l, 0);
    }

    /** Step 5 of sched_tick (sched.c:336-352). */
    method Sweep()
      requires Valid()
      modifies this
      ensures Valid() && Abs() == SchedSpec.Sweep(old(Abs()))
    {
      ghost var s := Abs();
      SweepInv(s);
      SweepQueueIs(s, ticks, LOW);
      hide Good, Linked, SweepQueue;
      if ticks % 200 == 0 {
        SweepOne(LOW, ticks);
        SweepOne(NORMAL, ticks);
      }
    }

    // -------------------------------------------------------------- creation and exit

    /** The scan for a free slot (sched.c:169-176). */
    method FindSlot() returns (t: int)
      requires |threads| == MAX_THREADS && |place| == MAX_THREADS
      ensures t == FreeSlot(Abs(), 0)
    {
      hide FreeSlot;
      for i := 0 to MAX_THREADS
        invariant FreeSlot(Abs(), i) == FreeSlot(Abs(), 0)
      {
        FreeSlotStep(Abs(), i);
        if threads[i].state == Terminated || threads[i].state == Embryo {
          return i;
        }
      }
      FreeSlotStep(Abs(), MAX_THREADS);
      return NIL;
    }

    /** sched_create_named_kthread (sched.c:163-230) without name and stack. Priority ISR
        would land in the queue that no one looks at. */
    method CreateThread(priority: nat) returns (t: int)
      requires Valid()
      modifies this
      ensures Abs() == Create(old(Abs()), priority)
      ensures Valid() <==> SchedRuns.Allowed(old(Abs()), SchedRuns.DoCreate(priority))
      ensures old(Abs()).Sized() && t == FreeSlot(old(Abs()), 0)
    {
      ghost var s := Abs();
      SchedLimits.AllowedIff(s, SchedRuns.DoCreate(priority));
      CreateFails(s, ticks);
      hide Good, Linked, Insert, FreeSlot;
      if count >= MAX_THREADS {
        FreeSlotIs(s, 0);
        return NIL;
      }
      var p := if priority >= LEVELS then NORMAL else priority;
      t := FindSlot();
      Fill(t, p);
      PushBack(p, t);
    }

    /** The control block of a new thread, and the counters (sched.c:179-193, 228). */
    method Fill(t: int, p: nat)
      requires Lists() && IsThread(t) && |place| == MAX_THREADS && place[t].Gone?
      modifies this`threads, this`nextTid, this`count, this`place
      ensures Lists() && Abs() == Filled(old(Abs()), t, Born(old(nextTid), p))
    {
      Shifted(C(), lists, place, t, Limbo);
      hide Linked;
      threads := threads[t := Born(nextTid, p)];
      nextTid := nextTid + 1;
      count := count + 1;
      place := place[t := Limbo];
    }

    /** sched_exit (sched.c:390-396). */
    method ExitThread()
      requires Valid()
      modifies this
      ensures Lists() && Abs() == SchedSpec.Exit(old(Abs()))
      ensures Valid() <==> SchedRuns.Allowed(old(Abs()), SchedRuns.DoExit)
    {
      ghost var s := Abs();
      SchedLimits.ExitSettles(s);
      CountsCurrent(s);
      IdleIsThread(s, s.ticks);
      Shifted(C(), lists, place, current, Gone);
      hide Good, Linked, Top, SchedRuns.Allowed, Alone;
      threads := threads[current := threads[current].(state := Terminated)];
      place := place[current := Gone];
      count := count - 1;
      assert Abs() == Leaving(s);
      hide Leaving;
      Yield();
    }

    // -------------------------------------------------------------- mutexes

    method WaitPush(m: nat, t: int)
      requires Lists() && m < |waiters| && IsThread(t) && |place| == MAX_THREADS && Outside(place[t])
      modifies this`links, this`waiters, this`lists, this`place
      ensures Lists() && Abs() == old(Abs()).Put(Blocked(m), 0, t)
    {
      hide Linked, Insert;
      ghost var c := C();
      WaitsLinked(c, lists, place, m, t);
      links := links[t := links[t].(next := waiters[m])];
      waiters := waiters[m := t];
      lists, place := lists[Blocked(m) := Insert(lists[Blocked(m)], 0, t)], place[t := Blocked(m)];
      assert C() == WaitsFor(c, m, t);
    }

    method WaitPop(m: nat) returns (t: int)
      requires Lists() && m < |waiters| && waiters[m] != NIL
      modifies this`links, this`waiters, this`lists, this`place
      ensures Lists() && |old(place)| == MAX_THREADS && old(Abs()).List(Blocked(m)) != [] && IsThread(t)
      ensures t == old(Abs()).Head(Blocked(m)) && Abs() == old(Abs()).Took(Blocked(m), 0)
    {
      hide Linked, Cut;
      ghost var c := C();
      WaitListIs(c, lists, place, m);
      HandedLinked(c, lists, place, m);
      t := waiters[m];
      waiters := waiters[m := links[t].next];
      links := links[t := links[t].(next := NIL)];
      lists, place := lists[Blocked(m) := Cut(lists[Blocked(m)], 0)], place[t := Limbo];
      assert C() == HandedFirst(c, m);
    }

    /** The current thread blocks on mutex m (sched.c:493-502). */
    method BlockOn(m: nat)
      requires Valid() && m < |mutexes| && mutexes[m].locked != 0
      modifies this`threads, this`links, this`waiters, this`lists, this`place
      ensures Lists() && old(Abs()).Sized() && IsThread(current)
          && Abs() == Waiting(Inherit(old(Abs()), mutexes[m].owner), m)
    {
      ghost var s := Abs();
      FreeIff(s, ticks, m);
      hide Good, Linked, Insert;
      var owner := mutexes[m].owner;
      if threads[owner].priority < threads[current].priority {
        threads := threads[owner := threads[owner].(priority := threads[current].priority)];
      }
      assert threads == Inherit(s, owner).threads;
      threads := threads[current := threads[current].(blockedOn := owner)];
      WaitPush(m, current);
      threads := threads[current := threads[current].(state := IsBlocked)];
      assert threads == Waiting(Inherit(s, owner), m).threads;
    }

    /** kmutex_lock (sched.c:484-504). */
    method LockMutex(m: nat)
      requires Valid() && m < |mutexes|
      modifies this
      ensures Abs() == SchedSpec.Lock(old(Abs()), m)
      ensures Valid() <==> SchedRuns.Allowed(old(Abs()), SchedRuns.DoLock(m))
    {
      ghost var s := Abs();
      SchedLimits.AllowedIff(s, SchedRuns.DoLock(m));
      if mutexes[m].locked == 0 {
        hide Good, Linked;
        mutexes := mutexes[m := mutexes[m].(locked := threads[current].tid)];
        mutexes := mutexes[m := mutexes[m].(owner := current)];
        assert mutexes == s.mutexes[m := Mutex(threads[current].tid, current)];
      } else {
        if SchedRuns.Allowed(s, SchedRuns.DoLock(m)) {
          WaitingGood(s, m);
          YieldPicks(Waiting(Inherit(s, mutexes[m].owner), m), ticks);
        }
        IdleIsThread(s, s.ticks);
        hide Good, Linked, Waiting, Inherit, Top;
        BlockOn(m);
        Yield();
      }
    }

    /** The first waiter gets the mutex (sched.c:515-522). */
    method HandToWaiter(m: nat)
      requires Lists() && m < |mutexes| && waiters[m] != NIL
      requires var t := Abs().Head(Blocked(m)); IsThread(t) && threads[t].priority <= REALTIME
      modifies this`threads, this`links, this`queues, this`mutexes, this`waiters, this`lists, this`place
      ensures Lists() && old(Abs()).Sized() && Abs() == HandOver(old(Abs()), m)
    {
      hide Linked, Insert, Cut;
      PlacesSized(C(), lists, place);
      var waiter := WaitPop(m);
      threads := threads[waiter := threads[waiter].(blockedOn := NIL)];
      threads := threads[waiter := threads[waiter].(state := IsReady)];
      mutexes := mutexes[m := Mutex(threads[waiter].tid, waiter)];
      PushFront(threads[waiter].priority, waiter);
    }

    /** kmutex_unlock (sched.c:506-527). */
    method UnlockMutex(m: nat)
      requires Valid() && m < |mutexes|
      modifies this
      ensures Valid() && Abs() == SchedSpec.Unlock(old(Abs()), m)
    {
      ghost var s := Abs();
      UnlockInv(s, m);
      if mutexes[m].owner != current {
        return;
      }
      WaiterServed(s, m);
      hide Good, Linked, HandOver;
      WaitListIs(C(), lists, place, m);
      threads := threads[current := threads[current].(priority := threads[current].base)];
      if waiters[m] != NIL {
        HandToWaiter(m);
      } else {
        mutexes := mutexes[m := Mutex(0, NIL)];
      }
    }

    // -------------------------------------------------------------- priorities

    /** rtos_boost (sched.c:420-426). */
    method BoostThread(t: int, priority: nat)
      requires Valid() && IsThread(t)
      modifies this`threads
      ensures Abs() == SchedSpec.Boost(old(Abs()), t, priority)
      ensures Valid() <==> SchedRuns.Allowed(old(Abs()), SchedRuns.DoBoost(t, priority))
    {
      hide Good, Linked;
      ghost var s := Abs();
      SchedLimits.AllowedIff(s, SchedRuns.DoBoost(t, priority));
      if priority > threads[t].priority {
        threads := threads[t := threads[t].(priority := priority)];
        threads := threads[t := threads[t].(slice := Quantum(priority))];
        assert threads == SchedSpec.Boost(s, t, priority).threads;
      }
    }

    /** rtos_set_deadline (sched.c:432-439). */
    method SetThreadDeadline(t: int, ms: nat)
      requires Valid() && IsThread(t)
      modifies this`threads
      ensures Valid() && Abs() == SchedSpec.SetDeadline(old(Abs()), t, ms)
    {
      hide Good, Linked;
      ghost var s := Abs();
      SetDeadlineInv(s, t, ms);
      threads := threads[t := threads[t].(deadline := ticks + ms, missed := false)];
      threads := threads[t := threads[t].(priority := REALTIME)];
      threads := threads[t := threads[t].(slice := Quantum(REALTIME))];
      assert threads == SchedSpec.SetDeadline(s, t, ms).threads;
    }

    /** sched_init and kmutex_init of mutexCount mutexes (sched.c:127-153, 477-482): the idle
        thread is made, queued, and then run without being taken off its queue. */
    constructor SchedInit(mutexCount: nat, missTicks: nat)
      ensures Abs() == SchedLimits.StartWith(mutexCount, missTicks, [0]) && !Valid()
      ensures links == seq(MAX_THREADS, _ => CLEAR) && queues == seq(LEVELS, _ => Queue(NIL, NIL))[IDLE := Queue(0, 0)]
      ensures sleepQ == NIL && waiters == seq(mutexCount, _ => NIL)
    {
      ghost var s := SchedLimits.StartWith(mutexCount, missTicks, [0]);
      threads := seq(MAX_THREADS, i => if i == 0 then Born(1, IDLE).(state := IsRunning)
                                       else Tcb(0, Terminated, 0, 0, 0, 0, 0, false, 0, 0, NIL));
      links := seq(MAX_THREADS, _ => CLEAR);
      queues := seq(LEVELS, _ => Queue(NIL, NIL))[IDLE := Queue(0, 0)];
      sleepQ := NIL;
      mutexes := seq(mutexCount, _ => Mutex(0, NIL));
      waiters := seq(mutexCount, _ => NIL);
      current, idle, ticks, nextTid, count, streak, missLimit := 0, 0, 0, 2, 1, 0, missTicks;
      lists, place := s.lists, s.place;
      new;
      assert Abs() == s;
      SchedLimits.StartIff(mutexCount, missTicks, [0]);
    }

    /** The same with the idle thread taken off its queue. */
    constructor OffQueue(mutexCount: nat, missTicks: nat)
      ensures Valid() && Abs() == SchedRuns.Start(mutexCount, missTicks)
    {
      ghost var s := SchedRuns.Start(mutexCount, missTicks);
      threads := seq(MAX_THREADS, i => if i == 0 then Born(1, IDLE).(state := IsRunning)
                                       else Tcb(0, Terminated, 0, 0, 0, 0, 0, false, 0, 0, NIL));
      links := seq(MAX_THREADS, _ => CLEAR);
      queues := seq(LEVELS, _ => Queue(NIL, NIL));
      sleepQ := NIL;
      mutexes := seq(mutexCount, _ => Mutex(0, NIL));
      waiters := seq(mutexCount, _ => NIL);
      current, idle, ticks, nextTid, count, streak, missLimit := 0, 0, 0, 2, 1, 0, missTicks;
      lists, place := s.lists, s.place;
      new;
      SchedRuns.StartInv(mutexCount, missTicks);
      SchedRuns.FirstListsAre(mutexCount);
      assert Abs() == s;
      AllEmpty(C(), lists, place);
    }
  }

  lemma AllEmpty(c: Chains, lists: map<Place, seq<int>>, place: seq<Place>)
    requires Partition(lists, place, |c.waiters|) && |c.links| == MAX_THREADS && |c.queues| == LEVELS && c.sleepQ == NIL
    requires forall p {:trigger lists[p]} | p in lists :: lists[p] == []
    requires forall t | 0 <= t < |c.links| :: c.links[t] == CLEAR
    requires forall l | 0 <= l < |c.queues| :: c.queues[l] == Queue(NIL, NIL)
    requires forall m | 0 <= m < |c.waiters| :: c.waiters[m] == NIL
    ensures Linked(c, lists, place)
  {
    forall p | p in lists ensures ListOk(c, lists, p) {
      assert lists[p] == [] && IsList(|c.waiters|, p);
    }
    forall t | IsThread(t) ensures Clear(c, place, t) {
    }
  }

  lemma FreeSlotStep(s: St, i: nat)
    requires s.Sized() && i <= MAX_THREADS
    ensures FreeSlot(s, i) == if i == MAX_THREADS then NIL
                              else if s.threads[i].state == Terminated || s.threads[i].state == Embryo then i
                                else FreeSlot(s, i + 1)
  {
  }

  lemma IdleIsThread(s: St, due: nat)
    requires Good(s, due)
    ensures IsThread(s.idle) && s.Sized()
  {
  }

  lemma CountsCurrent(s: St)
    requires Inv(s)
    ensures s.count > 0
  {
    assert s.current in Live(s.place);
  }

  lemma WaiterServed(s: St, m: nat)
    requires Inv(s) && m < |s.mutexes|
    ensures var t := s.Head(Blocked(m));
      t != NIL ==> IsThread(t) && t != s.current && s.place[t] == Blocked(m) && s.threads[t].priority <= REALTIME
  {
    Standing(s, s.ticks, Blocked(m));
    if s.Head(Blocked(m)) != NIL {
      BaseServed(s, s.ticks, s.Head(Blocked(m)));
    }
  }

  lemma WatchStep(s: St, i: nat)
    requires s.Sized() && i <= MAX_THREADS
    ensures Watch(s, i) == if i == MAX_THREADS then s else Watch(Watched(s, i), i + 1)
  {
  }

  lemma WakeAllStep(s: St)
    requires s.Sized()
    ensures WakeAll(s) == if HeadDue(s) then WakeAll(WakeOne(s)) else s
  {
  }

  lemma SweepLevelStep(s: St, l: nat, r: nat)
    requires s.Sized() && r <= |s.List(Ready(l))|
    ensures r == 0 ==> SweepLevel(s, l, r) == s
    ensures r > 0 ==> var s1 := RescueIf(s, l, |s.List(Ready(l))| - r);
                      r - 1 <= |s1.List(Ready(l))| && SweepLevel(s, l, r) == SweepLevel(s1, l, r - 1)
  {
    hide Rescue;
    if r > 0 {
      RescueSize(s, l, r);
    }
  }

  lemma RescueSize(s: St, l: nat, r: nat)
    requires s.Sized() && 0 < r <= |s.List(Ready(l))|
    ensures r - 1 <= |RescueIf(s, l, |s.List(Ready(l))| - r).List(Ready(l))|
  {
  }

  lemma InQueue(s: St, due: nat, l: nat, k: nat)
    requires Good(s, due) && l < LEVELS && k < |s.List(Ready(l))|
    ensures IsThread(s.List(Ready(l))[k]) && s.place[s.List(Ready(l))[k]] == Ready(l)
  {
    Standing(s, due, Ready(l));
  }

  lemma TailStep(q: seq<int>, q': seq<int>, r: nat)
    requires 0 < r <= |q| && r - 1 <= |q'| && q'[|q'| - (r - 1)..] == q[|q| - r..][1..]
    ensures At(q', |q'| - (r - 1)) == At(q, |q| - r + 1)
  {
    if r > 1 {
      assert q'[|q'| - (r - 1)..][0] == q[|q| - r..][1];
    }
  }

  lemma RescueIfTicks(s: St, l: nat, k: nat)
    requires s.Sized() && k < |s.List(Ready(l))|
    ensures RescueIf(s, l, k).ticks == s.ticks
  {
  }

  /** Wherever the thread that is looked at goes, the one behind it is looked at next. */
  lemma NextInTail(s: St, due: nat, l: nat, r: nat)
    requires Good(s, due) && l < LEVELS && 0 < r <= |s.List(Ready(l))|
    ensures var q, k, s1 := s.List(Ready(l)), |s.List(Ready(l))| - r, RescueIf(s, l, |s.List(Ready(l))| - r);
      && IsThread(q[k]) && Good(s1, due) && r - 1 <= |s1.List(Ready(l))| && s1.ticks == s.ticks
      && At(s1.List(Ready(l)), |s1.List(Ready(l))| - (r - 1)) == At(q, k + 1) && (At(q, k + 1) == NIL <==> r == 1)
      && !s.place[q[k]].Gone?
  {
    hide Parted, ThreadsOk, InDueOrder, MutexesOk, Counted, RescueIf, AllRescuedIf;
    Standing(s, due, Ready(l));
    SweepStep(s, due, l, r);
    RescueIfTicks(s, l, |s.List(Ready(l))| - r);
    TailStep(s.List(Ready(l)), RescueIf(s, l, |s.List(Ready(l))| - r).List(Ready(l)), r);
  }

  lemma RescueIfIs(s: St, due: nat, l: nat, k: nat)
    requires Good(s, due) && l < LEVELS && k < |s.List(Ready(l))|
    ensures var t := s.List(Ready(l))[k];
      && IsThread(t) && s.threads[t].lastRun <= s.ticks
      && RescueIf(s, l, k) == if s.ticks - s.threads[t].lastRun > 500 then Rescue(s, l, k) else s
  {
    InQueue(s, due, l, k);
    BaseServed(s, due, s.List(Ready(l))[k]);
    hide Good, Rescue;
  }

  lemma HeadLink(c: Chains, lists: map<Place, seq<int>>, place: seq<Place>, l: nat)
    requires Linked(c, lists, place) && l < LEVELS
    ensures |c.queues| == LEVELS && |c.links| == MAX_THREADS && Ready(l) in lists
    ensures c.queues[l].head == At(lists[Ready(l)], 0) && (c.queues[l].head == NIL <==> lists[Ready(l)] == [])
  {
    QueueIs(c, lists, place, l);
  }

  lemma NextLink(c: Chains, lists: map<Place, seq<int>>, place: seq<Place>, l: nat, k: nat)
    requires Linked(c, lists, place) && l < LEVELS && Ready(l) in lists && k < |lists[Ready(l)]|
    ensures |c.links| == MAX_THREADS && IsThread(lists[Ready(l)][k])
        && c.links[lists[Ready(l)][k]].next == At(lists[Ready(l)], k + 1)
  {
    QueueIs(c, lists, place, l);
  }

  lemma BaseServed(s: St, due: nat, t: int)
    requires Good(s, due) && IsThread(t) && !s.place[t].Gone?
    ensures s.threads[t].base <= REALTIME && s.threads[t].priority <= REALTIME && s.threads[t].lastRun <= s.ticks
  {
    assert ThreadOk(s, t, due);
  }

  lemma CurrentRuns(s: St, due: nat)
    requires Good(s, due) && Runs(s)
    ensures s.Sized() && s.threads[s.current].state == IsRunning
  {
    assert ThreadOk(s, s.current, due);
  }

  /** The two neighbours of t are other threads, so the writes of queue_remove do not
      disturb each other. */
  lemma RemovedIs(c: Chains, l: nat, t: int)
    requires l < |c.queues| && 0 <= t < |c.links| && -1 <= c.links[t].prev < |c.links|
        && -1 <= c.links[t].next < |c.links|
    requires c.links[t].prev != t
    ensures var x, h, u := c.links[t], c.links, c.queues[l];
      var h1 := if x.prev != NIL then h[x.prev := h[x.prev].(next := x.next)] else h;
      var h2 := if x.next != NIL then h1[x.next := h1[x.next].(prev := x.prev)] else h1;
      Removed(c, l, t) == c.(links := h2[t := CLEAR],
        queues := c.queues[l := Queue(if x.prev != NIL then u.head else x.next,
                                      if x.next != NIL then u.tail else x.prev)])
  {
  }

  lemma {:induction false} SleepIndexSame(s: St, s': St, q: seq<int>, u: nat)
    requires SameDue(s, s', q)
    ensures SleepIndex(s', q, u) == SleepIndex(s, q, u)
  {
    if q != [] {
      forall i {:trigger q[1..][i]} | 0 <= i < |q[1..]| ensures Due(s', q[1..][i]) == Due(s, q[1..][i]) {
        assert q[1..][i] == q[i + 1];
      }
      SleepIndexSame(s, s', q[1..], u);
    }
  }

  lemma SleepHead(c: Chains, lists: map<Place, seq<int>>, place: seq<Place>)
    requires Linked(c, lists, place)
    ensures |c.links| == MAX_THREADS && Asleep in lists && c.sleepQ == At(lists[Asleep], 0)
    ensures (lists[Asleep] == [] <==> c.sleepQ == NIL) && (lists[Asleep] != [] ==> IsThread(c.sleepQ))
  {
    SleepListIs(c, lists, place);
  }

  lemma PlacesSized(c: Chains, lists: map<Place, seq<int>>, place: seq<Place>)
    requires Linked(c, lists, place)
    ensures |place| == MAX_THREADS
  {
  }

  lemma TopStep(s: St, n: int)
    requires n >= -1
    ensures Top(s, n) == if n < 0 then -1 else if s.Head(Ready(n)) != NIL then n else Top(s, n - 1)
  {
  }
}

/** Which calls break the scheduler: exactly those that SchedRuns.Allowed leaves out. The
    code accepts them all the same. */
module SchedLimits {
  import opened SchedPlaces
  import opened SchedSpec
  import opened SchedSafety
  import opened SchedRuns

  /** x is s after the running thread was marked for another place; the ready queues are the
      same. */
  ghost predicate PutAway(s: St, x: St) {
    && s.Sized() && x.Sized() && x.current == s.current && x.idle == s.idle && IsThread(x.current)
    && x.threads[x.current].state != IsRunning
    && forall l {:trigger Ready(l)} :: x.List(Ready(l)) == s.List(Ready(l))
  }

  lemma SameTop(s: St, x: St, n: int)
    requires n >= -1 && forall l {:trigger Ready(l)} :: x.List(Ready(l)) == s.List(Ready(l))
    ensures Top(x, n) == Top(s, n)
    decreases n
  {
  }

  /** sched_yield leaves the place of the thread that was put away, unless this is the idle
      thread and no other is ready: then it runs again. */
  lemma YieldLeaves(s: St, x: St)
    requires Inv(s) && PutAway(s, x)
    ensures if Top(s, REALTIME) >= 0 then Yield(x).place[s.current] == x.place[s.current] && Yield(x).idle == s.idle
            else s.current == s.idle && Yield(x) == Dispatched(x, s.idle)
  {
    SameTop(s, x, REALTIME);
    TopIs(s, REALTIME);
    var l := Top(s, REALTIME);
    if l >= 0 {
      Standing(s, s.ticks, Ready(l));
    } else if s.current != s.idle {
      IdleIsReady(s);
    }
  }

  /** The idle thread runs or is ready. */
  lemma IdleIsReady(s: St)
    requires Inv(s) && s.current != s.idle
    ensures Top(s, REALTIME) >= 0
  {
    TopIs(s, REALTIME);
    assert ThreadOk(s, s.idle, s.ticks);
    assert s.place[s.idle].Ready?;
    Standing(s, s.ticks, s.place[s.idle]);
  }

  lemma SleepBreaks(s: St, ms: nat)
    requires Inv(s) && s.current == s.idle
    ensures !Inv(Sleep(s, ms))
  {
    var x := FallAsleep(s, ms);
    assert PutAway(s, x);
    YieldLeaves(s, x);
    if Top(s, REALTIME) < 0 {
      ListedElsewhere(x, Asleep, SleepIndex(s, s.List(Asleep), s.ticks + ms));
    }
  }

  /** A thread that is dispatched while it stands in a list is in two places. */
  lemma ListedElsewhere(x: St, p: Place, k: nat)
    requires x.Sized() && IsThread(x.idle) && k < |x.List(p)| && x.List(p)[k] == x.idle && !p.Running?
    ensures !Inv(Dispatched(x, x.idle))
  {
    var r := Dispatched(x, x.idle);
    if Inv(r) {
      Standing(r, r.ticks, p);
    }
  }

  lemma ExitBreaks(s: St)
    requires Inv(s) && (s.current == s.idle || !HoldsNone(s))
    ensures !Inv(Exit(s))
  {
    var x := Leaving(s);
    assert PutAway(s, x);
    YieldLeaves(s, x);
    if Top(s, REALTIME) < 0 {
      assert Live(Dispatched(x, s.idle).place) == Live(s.place);
      assert s.current in Live(s.place);
    } else if s.current != s.idle {
      var m :| 0 <= m < |s.mutexes| && s.mutexes[m].owner == s.current;
      assert !MutexOk(Exit(s), m);
    }
  }

  /** Whoever exits, a thread is ready or the idle thread is outside all lists. */
  lemma ExitSettles(s: St)
    requires Inv(s)
    ensures Top(Leaving(s), REALTIME) >= 0 || Leaving(s).place[s.idle].Gone?
    ensures Inv(Exit(s)) <==> Allowed(s, DoExit)
  {
    AllowedIff(s, DoExit);
    YieldLeaves(s, Leaving(s));
    SameTop(s, Leaving(s), REALTIME);
  }

  lemma CreateBreaks(s: St)
    requires Inv(s) && s.count < MAX_THREADS
    ensures !Inv(Create(s, ISR))
  {
    CreateFails(s, s.ticks);
    var t := FreeSlot(s, 0);
    assert !ThreadOk(Create(s, ISR), t, s.ticks);
  }

  lemma LockBreaks(s: St, m: nat)
    requires Inv(s) && m < |s.mutexes| && s.mutexes[m].locked != 0
    requires s.mutexes[m].owner == s.current || s.current == s.idle
    ensures !Inv(Lock(s, m))
  {
    var x := Waiting(Inherit(s, s.mutexes[m].owner), m);
    assert PutAway(s, x);
    YieldLeaves(s, x);
    if Top(s, REALTIME) < 0 {
      ListedElsewhere(x, Blocked(m), 0);
    } else if s.current != s.idle {
      assert !MutexOk(Lock(s, m), m);
    }
  }

  lemma YieldBreaks(s: St)
    requires Inv(s) && Top(s, REALTIME) >= 0
    ensures !Inv(Yield(s))
  {
    TopIs(s, REALTIME);
    Standing(s, s.ticks, Ready(Top(s, REALTIME)));
    assert Yield(s).place[s.current].Running?;
  }

  lemma BoostBreaks(s: St, t: int, priority: nat)
    requires Inv(s) && IsThread(t) && priority > REALTIME && !s.place[t].Gone?
    ensures !Inv(Boost(s, t, priority))
  {
    assert ThreadOk(s, t, s.ticks);
    assert !ThreadOk(Boost(s, t, priority), t, s.ticks);
  }

  /** A call keeps the invariant if and only if it is allowed. */
  lemma AllowedIff(s: St, op: Op)
    requires Inv(s) && Called(s, op)
    ensures Inv(Step(s, op)) <==> Allowed(s, op)
  {
    if Allowed(s, op) {
      StepInv(s, op);
    } else {
      hide Inv;
      match op
      case DoYield => YieldBreaks(s);
      case DoSleep(ms) => SleepBreaks(s, ms);
      case DoExit => ExitBreaks(s);
      case DoCreate(p) => CreateBreaks(s);
      case DoLock(m) => OwnedIsLocked(s, m); LockBreaks(s, m);
      case DoBoost(t, p) => BoostBreaks(s, t, p);
      case _ =>
    }
  }

  lemma SleepSettles(s: St, ms: nat)
    requires Inv(s)
    ensures Inv(Sleep(s, ms)) <==> Allowed(s, DoSleep(ms))
    ensures Allowed(s, DoSleep(ms)) ==> Top(FallAsleep(s, ms), REALTIME) >= 0
  {
    AllowedIff(s, DoSleep(ms));
    if s.current != s.idle {
      IdleIsReady(s);
      SameTop(s, FallAsleep(s, ms), REALTIME);
    }
  }

  lemma OwnedIsLocked(s: St, m: nat)
    requires Inv(s) && m < |s.mutexes|
    ensures s.mutexes[m].owner == s.current ==> s.mutexes[m].locked != 0
  {
    FreeIff(s, s.ticks, m);
  }

  // ---------------------------------------------------------------- sched_init

  /** The state of sched_init with queue IDLE as given. */
  function StartWith(mutexes: nat, missLimit: nat, q: seq<int>): St {
    var s := Start(mutexes, missLimit);
    s.(lists := s.lists[Ready(IDLE) := q])
  }

  /** sched_init leaves the idle thread in queue IDLE and runs it too (sched.c:145-152);
      consistent is only the state with that queue empty. */
  lemma StartIff(mutexes: nat, missLimit: nat, q: seq<int>)
    ensures Inv(StartWith(mutexes, missLimit, q)) <==> q == []
    ensures !Inv(StartWith(mutexes, missLimit, [0]))
  {
    var s := StartWith(mutexes, missLimit, q);
    FirstListsAre(mutexes);
    if q == [] {
      assert s == Start(mutexes, missLimit);
      StartInv(mutexes, missLimit);
    }
    if q != [] {
      OnlyEmpty(mutexes, missLimit, q);
    }
    OnlyEmpty(mutexes, missLimit, [0]);
  }

  lemma OnlyEmpty(mutexes: nat, missLimit: nat, q: seq<int>)
    requires q != []
    ensures !Inv(StartWith(mutexes, missLimit, q))
  {
    var s := StartWith(mutexes, missLimit, q);
    if Inv(s) {
      Standing(s, s.ticks, Ready(IDLE));
    }
  }
}

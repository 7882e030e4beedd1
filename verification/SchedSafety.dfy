/** Every operation of the scheduler keeps its invariant. */
module SchedSafety {
  import opened Basics
  import opened SchedPlaces
  import opened SchedSpec

  // ---------------------------------------------------------------- one thread moves

  lemma Standing(s: St, due: nat, p: Place)
    requires Good(s, due) && IsList(|s.mutexes|, p)
    ensures p in s.lists && |s.place| == MAX_THREADS && Distinct(s.List(p))
    ensures forall t {:trigger t in s.List(p)} {:trigger s.place[t]} | IsThread(t) ::
        t in s.List(p) <==> s.place[t] == p
    ensures forall k {:trigger s.List(p)[k]} | 0 <= k < |s.List(p)| ::
        IsThread(s.List(p)[k]) && s.place[s.List(p)[k]] == p
    ensures s.Head(p) == NIL <==> s.List(p) == []
    ensures s.List(p) != [] ==> s.Head(p) == s.List(p)[0]
  {
    InList(s.lists, s.place, |s.mutexes|, p);
  }

  lemma LiveKept(place: seq<Place>, t: int, to: Place)
    requires IsThread(t) && |place| == MAX_THREADS && !place[t].Gone? && !to.Gone?
    ensures Live(place[t := to]) == Live(place)
  {
  }

  lemma PartedKept(s: St, s': St)
    requires Parted(s) && s'.lists == s.lists && s'.place == s.place && |s'.mutexes| == |s.mutexes|
    ensures Parted(s')
  {
  }

  lemma PartedShifted(s: St, s': St, t: int, to: Place)
    requires s.Sized() && Parted(s) && IsThread(t) && Outside(s.place[t]) && Outside(to)
    requires s'.lists == s.lists && s'.place == s.place[t := to] && |s'.mutexes| == |s.mutexes|
    ensures Parted(s')
  {
    Shift(s.lists, s.place, |s.mutexes|, t, to);
  }

  lemma TookParted(s: St, p: Place, k: nat)
    requires s.Sized() && Parted(s) && IsList(|s.mutexes|, p) && k < |s.List(p)|
    ensures IsThread(s.List(p)[k]) && s.place[s.List(p)[k]] == p
    ensures Parted(s.Took(p, k)) && s.Took(p, k).List(p) == Cut(s.List(p), k)
    ensures forall r {:trigger s.Took(p, k).List(r)} | r != p :: s.Took(p, k).List(r) == s.List(r)
  {
    InList(s.lists, s.place, |s.mutexes|, p);
    CutMembers(s.lists[p], k);
    Leave(s.lists, s.place, |s.mutexes|, p, Cut(s.lists[p], k), s.lists[p][k], Limbo);
  }

  lemma PutParted(s: St, p: Place, k: nat, t: int)
    requires s.Sized() && Parted(s) && IsList(|s.mutexes|, p) && IsThread(t) && Outside(s.place[t]) && k <= |s.List(p)|
    ensures t !in s.List(p) && Parted(s.Put(p, k, t)) && s.Put(p, k, t).List(p) == Insert(s.List(p), k, t)
    ensures forall r {:trigger s.Put(p, k, t).List(r)} | r != p :: s.Put(p, k, t).List(r) == s.List(r)
  {
    InList(s.lists, s.place, |s.mutexes|, p);
    InsertMembers(s.lists[p], k, t);
    Join(s.lists, s.place, |s.mutexes|, p, Insert(s.lists[p], k, t), t);
  }

  lemma TookGood(s: St, due: nat, p: Place, k: nat)
    requires Good(s, due) && IsList(|s.mutexes|, p) && k < |s.List(p)| && (p.Ready? || s.List(p)[k] != s.idle)
    ensures IsThread(s.List(p)[k]) && s.place[s.List(p)[k]] == p && Good(s.Took(p, k), due)
    ensures s.Took(p, k).List(p) == Cut(s.List(p), k)
    ensures forall r {:trigger s.Took(p, k).List(r)} | r != p :: s.Took(p, k).List(r) == s.List(r)
  {
    TookParted(s, p, k);
    var s', t := s.Took(p, k), s.List(p)[k];
    hide Parted;
    assert ThreadOk(s, t, due);
    LiveKept(s.place, t, Limbo);
    forall x | IsThread(x) ensures ThreadOk(s', x, due) {
      assert ThreadOk(s, x, due);
    }
    forall m: nat | m < |s'.mutexes| ensures MutexOk(s', m) {
      assert MutexOk(s, m);
    }
    CutInDueOrder(s, p, k);
  }

  lemma CutInDueOrder(s: St, p: Place, k: nat)
    requires s.Sized() && InDueOrder(s) && k < |s.List(p)| && IsThread(s.List(p)[k])
    ensures InDueOrder(s.Took(p, k))
  {
    hide InOrder;
    if p.Asleep? {
      CutInOrder(s, s.List(p), k);
    }
    OrderFrame(s, s.Took(p, k), s.Took(p, k).List(Asleep));
  }

  lemma CutInOrder(s: St, q: seq<int>, k: nat)
    requires InOrder(s, q) && k < |q|
    ensures InOrder(s, Cut(q, k))
  {
    var q' := Cut(q, k);
    forall i, j {:trigger q'[i], q'[j]} | 0 <= i < j < |q'| ensures Due(s, q'[i]) <= Due(s, q'[j]) {
      assert q'[i] == q[if i < k then i else i + 1] && q'[j] == q[if j < k then j else j + 1];
    }
  }

  lemma OrderFrame(s: St, s': St, q: seq<int>)
    requires InOrder(s, q) && s'.threads == s.threads
    ensures InOrder(s', q)
  {
  }

  /** Thread t, outside the lists, gets fields x and goes to place k of list p. */
  lemma PutGood(s: St, due: nat, p: Place, k: nat, t: int, x: Tcb)
    requires Good(s, due) && IsList(|s.mutexes|, p) && IsThread(t) && Outside(s.place[t]) && !s.place[t].Gone?
    requires k <= |s.List(p)| && x.tid == s.threads[t].tid
    requires ThreadOk(s.With(t, x).Put(p, k, t), t, due) && (t == s.idle ==> p.Ready?)
    requires p.Asleep? ==> InDueOrder(s.With(t, x).Put(p, k, t))
    requires p.Blocked? ==> s.mutexes[p.mutex].owner != NIL && s.mutexes[p.mutex].owner != t
    ensures Good(s.With(t, x).Put(p, k, t), due)
    ensures s.With(t, x).Put(p, k, t).List(p) == Insert(s.List(p), k, t)
    ensures forall r {:trigger s.With(t, x).Put(p, k, t).List(r)} | r != p ::
        s.With(t, x).Put(p, k, t).List(r) == s.List(r)
  {
    var s' := s.With(t, x).Put(p, k, t);
    Standing(s, due, p);
    PutParted(s.With(t, x), p, k, t);
    hide Parted;
    LiveKept(s.place, t, p);
    forall y | IsThread(y) ensures ThreadOk(s', y, due) {
      assert ThreadOk(s, y, due);
    }
    forall m: nat | m < |s'.mutexes| ensures MutexOk(s', m) {
      assert MutexOk(s, m);
    }
    if !p.Asleep? {
      OrderKept(s, s', due, t);
    }
  }

  lemma OrderKept(s: St, s': St, due: nat, t: int)
    requires Good(s, due) && IsThread(t) && s.Sized() && s'.Sized() && s'.List(Asleep) == s.List(Asleep)
    requires forall y | IsThread(y) && (y != t || s.place[t] == Asleep) ::
        s'.threads[y].sleepUntil == s.threads[y].sleepUntil
    ensures InDueOrder(s')
  {
    Standing(s, due, Asleep);
  }

  /** Fields of one thread change. */
  lemma WithGood(s: St, due: nat, t: int, x: Tcb)
    requires Good(s, due) && IsThread(t) && ThreadOk(s.With(t, x), t, due)
    requires x.tid == s.threads[t].tid && x.sleepUntil == s.threads[t].sleepUntil
    ensures Good(s.With(t, x), due)
  {
    var s' := s.With(t, x);
    hide Parted;
    PartedKept(s, s');
    forall y | IsThread(y) ensures ThreadOk(s', y, due) {
      assert ThreadOk(s, y, due);
    }
    forall m: nat | m < |s'.mutexes| ensures MutexOk(s', m) {
      assert MutexOk(s, m);
    }
    OrderKept(s, s', due, t);
  }

  // ---------------------------------------------------------------- sched_yield

  /** Nothing between two lists but t; no one runs. */
  ghost predicate Between(s: St, due: nat) {
    Good(s, due) && Alone(s, NIL)
  }

  lemma TopIs(s: St, n: int)
    requires n >= -1
    ensures -1 <= Top(s, n) <= n
    ensures Top(s, n) >= 0 ==> s.Head(Ready(Top(s, n))) != NIL
    ensures forall l {:trigger Ready(l)} | Top(s, n) < l <= n :: l >= 0 ==> s.Head(Ready(l)) == NIL
    decreases n
  {
  }

  lemma DispatchGood(s: St, due: nat, t: int)
    requires Good(s, due) && IsThread(t) && s.place[t].Limbo?
    ensures Good(Dispatched(s, t), due)
  {
    var s' := Dispatched(s, t);
    hide Parted;
    PartedShifted(s, s', t, Running);
    LiveKept(s.place, t, Running);
    assert ThreadOk(s, t, due);
    forall y | IsThread(y) ensures ThreadOk(s', y, due) {
      assert ThreadOk(s, y, due);
    }
    forall m: nat | m < |s'.mutexes| ensures MutexOk(s', m) {
      assert MutexOk(s, m);
    }
    OrderKept(s, s', due, t);
  }

  /** What sched_yield picks: the head of the highest queue that has a thread. There always
      is one, so it never falls back on the idle thread (sched.c:370-375). */
  lemma YieldPicks(s: St, due: nat)
    requires Between(s, due)
    ensures var l := Top(s, REALTIME);
      && 0 <= l <= REALTIME && s.List(Ready(l)) != [] && var t := s.Head(Ready(l));
      && IsThread(t) && s.place[t] == Ready(l) && t == s.List(Ready(l))[0]
      && (forall y | IsThread(y) && s.place[y].Ready? :: s.place[y].level <= l)
      && Yield(s) == Dispatched(s.Took(Ready(l), 0), t)
  {
    hide Parted, InDueOrder, MutexesOk, Counted;
    var l := Top(s, REALTIME);
    TopIs(s, REALTIME);
    forall y | IsThread(y) && s.place[y].Ready? ensures s.place[y].level <= l {
      assert ThreadOk(s, y, due);
      Standing(s, due, s.place[y]);
    }
    assert !s.place[s.idle].Limbo? && !s.place[s.idle].Running?;
    Standing(s, due, Ready(l));
  }

  lemma YieldInv(s: St, due: nat)
    requires Between(s, due)
    ensures Good(Yield(s), due) && Runs(Yield(s)) && Alone(Yield(s), Yield(s).current)
  {
    YieldPicks(s, due);
    hide Good, Top;
    var l := Top(s, REALTIME);
    TookGood(s, due, Ready(l), 0);
    DispatchGood(s.Took(Ready(l), 0), due, s.Head(Ready(l)));
  }

  // ---------------------------------------------------------------- sched_sleep

  /** The first k of list q are those due at tick u or before. */
  ghost predicate Splits(s: St, q: seq<int>, k: nat, u: nat) {
    forall i {:trigger q[i]} | 0 <= i < |q| :: i < k <==> Due(s, q[i]) <= u
  }

  /** In a list in due order, the place of a sleeper is behind those due no later than it and
      before those due later. */
  lemma {:induction false} SleepIndexIs(s: St, q: seq<int>, u: nat)
    requires InOrder(s, q)
    ensures Splits(s, q, SleepIndex(s, q, u), u)
  {
    if q != [] && Due(s, q[0]) <= u {
      var r := q[1..];
      forall i, j {:trigger r[i], r[j]} | 0 <= i < j < |r| ensures Due(s, r[i]) <= Due(s, r[j]) {
        assert Due(s, q[i + 1]) <= Due(s, q[j + 1]);
      }
      SleepIndexIs(s, r, u);
      forall i {:trigger q[i]} | 0 <= i < |q| ensures i < SleepIndex(s, q, u) <==> Due(s, q[i]) <= u {
        if i > 0 {
          assert r[i - 1] == q[i];
        }
      }
    } else if q != [] {
      assert forall i {:trigger q[i]} | 0 < i < |q| :: Due(s, q[0]) <= Due(s, q[i]);
    }
  }

  ghost predicate SameDue(s: St, s': St, q: seq<int>) {
    forall i {:trigger q[i]} | 0 <= i < |q| :: Due(s', q[i]) == Due(s, q[i])
  }

  lemma InsertInOrder(s: St, s': St, q: seq<int>, k: int, t: int)
    requires InOrder(s, q) && 0 <= k <= |q| && Splits(s, q, k, Due(s', t)) && SameDue(s, s', q)
    ensures InOrder(s', Insert(q, k, t))
  {
    var q' := Insert(q, k, t);
    forall i, j {:trigger q'[i], q'[j]} | 0 <= i < j < |q'| ensures Due(s', q'[i]) <= Due(s', q'[j]) {
      assert i != k ==> q'[i] == q[if i < k then i else i - 1];
      assert j != k ==> q'[j] == q[if j < k then j else j - 1];
    }
  }

  lemma SleepersKept(s: St, s': St)
    requires Inv(s) && s'.Sized() && s'.threads == s.threads[s.current := s'.threads[s.current]]
    ensures SameDue(s, s', s.List(Asleep))
  {
    Standing(s, s.ticks, Asleep);
  }

  lemma FallAsleepSorted(s: St, ms: nat)
    requires Inv(s)
    ensures InDueOrder(FallAsleep(s, ms))
  {
    hide Parted, ThreadsOk, MutexesOk, Counted, InOrder, SleepIndex, Splits, SameDue, Insert;
    var s', q, u := FallAsleep(s, ms), s.List(Asleep), s.ticks + ms;
    SleepersKept(s, s');
    SleepIndexIs(s, q, u);
    InsertInOrder(s, s', q, SleepIndex(s, q, u), s.current);
  }

  lemma CurrentOk(s: St, due: nat)
    requires Good(s, due) && Runs(s)
    ensures s.Sized() && ThreadOk(s, s.current, due) && IsList(|s.mutexes|, Asleep)
  {
  }

  /** Whatever its place in the list, the sleeper itself is as it should be. */
  lemma SleeperOk(s: St, due: nat, k: nat, u: nat)
    requires Good(s, due) && Runs(s) && k <= |s.List(Asleep)| && u >= due
    ensures var x := s.threads[s.current].(state := IsSleeping, sleepUntil := u);
        var r := s.With(s.current, x).Put(Asleep, k, s.current);
      ThreadOk(r, s.current, due) && (Alone(s, s.current) ==> Alone(r, NIL))
  {
    hide Insert;
    CurrentOk(s, due);
  }

  lemma FallAsleepGood(s: St, ms: nat)
    requires Inv(s) && s.current != s.idle
    ensures Between(FallAsleep(s, ms), s.ticks)
  {
    var k := SleepIndex(s, s.List(Asleep), s.ticks + ms);
    FallAsleepSorted(s, ms);
    SleeperOk(s, s.ticks, k, s.ticks + ms);
    hide Good, InDueOrder, SleepIndex, Insert, Alone, ThreadOk;
    PutGood(s, s.ticks, Asleep, k, s.current, s.threads[s.current].(state := IsSleeping, sleepUntil := s.ticks + ms));
  }

  lemma SleepInv(s: St, ms: nat)
    requires Inv(s) && s.current != s.idle
    ensures Inv(Sleep(s, ms))
  {
    FallAsleepGood(s, ms);
    hide Good;
    YieldInv(FallAsleep(s, ms), s.ticks);
  }

  // ---------------------------------------------------------------- sched_tick

  function WokenTcb(x: Tcb): Tcb {
    var boost := if x.base < HIGH then HIGH else x.base;
    x.(state := IsReady, priority := boost, slice := Quantum(boost))
  }

  lemma WakeOneGood(s: St, due: nat)
    requires Good(s, due) && HeadDue(s)
    ensures var t, w := s.Head(Asleep), WakeOne(s);
      && Good(w, due) && s.place[t] == Asleep && t == s.List(Asleep)[0] && w.List(Asleep) == Cut(s.List(Asleep), 0)
      && w.threads == s.threads[t := WokenTcb(s.threads[t])]
      && w.place == s.place[t := Ready(WokenTcb(s.threads[t]).priority)]
      && w == s.(threads := w.threads, place := w.place, lists := w.lists)
      && forall p {:trigger w.List(p)} | p != Asleep && p != Ready(WokenTcb(s.threads[t]).priority) ::
        w.List(p) == s.List(p)
  {
    Standing(s, due, Asleep);
    var t, b := s.Head(Asleep), WokenTcb(s.threads[s.Head(Asleep)]).priority;
    assert ThreadOk(s, t, due);
    TookGood(s, due, Asleep, 0);
    hide Good;
    PutGood(s.Took(Asleep, 0), due, Ready(b), 0, t, WokenTcb(s.threads[t]));
  }

  /** The head is not due, so no one is. */
  lemma NoneDue(s: St, due: nat)
    requires Good(s, due) && !HeadDue(s) && due <= s.ticks
    ensures Good(s, s.ticks) && forall t | IsThread(t) && s.place[t] == Asleep :: s.threads[t].sleepUntil > s.ticks
  {
    Standing(s, due, Asleep);
    var q := s.List(Asleep);
    forall t | IsThread(t) && s.place[t] == Asleep ensures s.threads[t].sleepUntil > s.ticks {
      var i :| 0 <= i < |q| && q[i] == t;
      if i > 0 {
        assert Due(s, q[0]) <= Due(s, q[i]);
      }
    }
    forall t | IsThread(t) ensures ThreadOk(s, t, s.ticks) {
      assert ThreadOk(s, t, due);
    }
  }

  ghost predicate WokenIf(s: St, r: St, t: int)
    requires s.Sized() && r.Sized() && IsThread(t)
  {
    if s.place[t] == Asleep && s.threads[t].sleepUntil <= s.ticks
    then r.place[t] == Ready(WokenTcb(s.threads[t]).priority) && r.threads[t] == WokenTcb(s.threads[t])
    else r.place[t] == s.place[t] && r.threads[t] == s.threads[t]
  }

  ghost predicate AllWoken(s: St, r: St) {
    && s.Sized() && r.Sized()
    && forall t {:trigger WokenIf(s, r, t)} | IsThread(t) :: WokenIf(s, r, t)
  }

  /** Step 1 wakes exactly the sleepers that are due, though it only looks at the head. */
  lemma {:induction false} WakesExactlyDue(s: St, due: nat)
    requires Good(s, due) && due <= s.ticks
    ensures var r := WakeAll(s); Good(r, s.ticks) && r == s.(threads := r.threads, place := r.place, lists := r.lists)
    ensures AllWoken(s, WakeAll(s))
    ensures forall t {:trigger WakeAll(s).place[t]} | IsThread(t) && WakeAll(s).place[t] == Asleep ::
        WakeAll(s).threads[t].sleepUntil > s.ticks
    decreases |s.List(Asleep)|
  {
    if HeadDue(s) {
      WakeOneGood(s, due);
      hide Good;
      var w := WakeOne(s);
      WakesExactlyDue(w, due);
      forall t | IsThread(t) ensures WokenIf(s, WakeAll(s), t) {
        assert WokenIf(w, WakeAll(w), t);
      }
    } else {
      NoneDue(s, due);
    }
  }

  /** Threads x and y differ at most in what the watchdog sets. */
  predicate OnlyWatched(x: Tcb, y: Tcb) {
    && y == x.(missed := y.missed, priority := y.priority)
    && (y.priority == x.priority || (x.priority >= REALTIME && y.priority == HIGH))
  }

  ghost predicate AllWatched(s: St, r: St) {
    s.Sized() && r.Sized() && forall t {:trigger OnlyWatched(s.threads[t], r.threads[t])} | IsThread(t) ::
      OnlyWatched(s.threads[t], r.threads[t])
  }

  lemma WatchedGood(s: St, due: nat, i: int)
    requires Good(s, due) && IsThread(i)
    ensures var r := Watched(s, i);
      Good(r, due) && OnlyWatched(s.threads[i], r.threads[i])
      && r == s.(threads := s.threads[i := r.threads[i]], streak := r.streak)
  {
    assert ThreadOk(s, i, due);
    var r := Watched(s, i);
    hide Good;
    WithGood(s, due, i, r.threads[i]);
    StreakFree(s.With(i, r.threads[i]), due, r.streak);
  }

  lemma StreakFree(s: St, due: nat, n: nat)
    requires Good(s, due)
    ensures Good(s.(streak := n), due)
  {
    var s' := s.(streak := n);
    forall y | IsThread(y) ensures ThreadOk(s', y, due) {
      assert ThreadOk(s, y, due);
    }
    forall m: nat | m < |s'.mutexes| ensures MutexOk(s', m) {
      assert MutexOk(s, m);
    }
    OrderKept(s, s', due, 0);
  }

  lemma {:induction false} WatchGood(s: St, due: nat, i: nat)
    requires Good(s, due) && i <= MAX_THREADS
    ensures var r := Watch(s, i);
      Good(r, due) && r == s.(threads := r.threads, streak := r.streak) && AllWatched(s, r)
    decreases MAX_THREADS - i
  {
    if i < MAX_THREADS {
      WatchedGood(s, due, i);
      hide Good;
      WatchGood(Watched(s, i), due, i + 1);
      forall t | IsThread(t) ensures OnlyWatched(s.threads[t], Watch(s, i).threads[t]) {
        assert OnlyWatched(Watched(s, i).threads[t], Watch(s, i).threads[t]);
      }
    }
  }

  /** The watchdog looks at the deadline of thread t. */
  predicate IsWatched(s: St, t: int)
    requires s.Sized() && IsThread(t)
  {
    var x := s.threads[t];
    x.state != Terminated && x.priority >= REALTIME && x.deadline != 0
  }

  /** Thread t has missed its deadline, and this was not noticed before. */
  predicate NewMiss(s: St, t: int)
    requires s.Sized() && IsThread(t)
  {
    IsWatched(s, t) && s.threads[t].deadline < s.ticks && !s.threads[t].missed
  }

  /** A watched thread is marked exactly when its deadline is over, and loses its priority,
      to HIGH, only in the pass that notices this; no other thread changes. */
  ghost predicate WatchedRight(s: St, r: St, t: int)
    requires s.Sized() && r.Sized() && IsThread(t)
  {
    var x, y := s.threads[t], r.threads[t];
    && y == x.(missed := y.missed, priority := y.priority)
    && (!IsWatched(s, t) ==> y == x)
    && (IsWatched(s, t) ==> y.missed == (x.deadline < s.ticks))
    && (y.priority != x.priority ==> NewMiss(s, t) && y.priority == HIGH)
  }

  /** Slots from i on that are newly missed. */
  ghost function NewMisses(s: St, i: nat): set<int>
    requires s.Sized()
  {
    set t | i <= t < MAX_THREADS && NewMiss(s, t)
  }

  /** Slots from i on whose priority is another one in r. */
  ghost function Dropped(s: St, r: St, i: nat): set<int>
    requires s.Sized() && r.Sized()
  {
    set t | i <= t < MAX_THREADS && r.threads[t].priority != s.threads[t].priority
  }

  /** No watched thread from slot i on is within its deadline. */
  ghost predicate NoneOnTime(s: St, i: nat)
    requires s.Sized()
  {
    forall t | i <= t < MAX_THREADS && IsWatched(s, t) :: s.threads[t].deadline < s.ticks
  }

  lemma {:induction false} WatchMarks(s: St, i: nat)
    requires s.Sized() && i <= MAX_THREADS
    ensures forall t | 0 <= t < i :: Watch(s, i).threads[t] == s.threads[t]
    ensures forall t | i <= t < MAX_THREADS :: WatchedRight(s, Watch(s, i), t)
    decreases MAX_THREADS - i
  {
    if i < MAX_THREADS {
      var s1 := Watched(s, i);
      WatchMarks(s1, i + 1);
      forall t | i <= t < MAX_THREADS ensures WatchedRight(s, Watch(s, i), t) {
        if t > i {
          assert WatchedRight(s1, Watch(s1, i + 1), t);
        }
      }
    }
  }

  /** How many misses in a row cost a thread its priority; a limit of 0 acts like 1. */
  function Limit(s: St): nat {
    if s.missLimit == 0 then 1 else s.missLimit
  }

  /** Every Limit-th miss in a row costs a thread its priority: misses carried in and noticed
      are those carried out and Limit for each thread that dropped. */
  lemma {:induction false} EveryNthMissDrops(s: St, i: nat)
    requires s.Sized() && i <= MAX_THREADS && s.streak < Limit(s) && NoneOnTime(s, i)
    ensures var r := Watch(s, i);
      && r.streak < Limit(s)
      && r.streak + Limit(s) * |Dropped(s, r, i)| == s.streak + |NewMisses(s, i)|
    decreases MAX_THREADS - i
  {
    if i < MAX_THREADS {
      var s1, r := Watched(s, i), Watch(s, i);
      MissStep(s, i);
      WatchMarks(s1, i + 1);
      NewMissesSplit(s, i);
      DroppedSplit(s, s1, r, i);
      hide NewMiss, NewMisses, Dropped, NoneOnTime, Watched, WatchedRight;
      EveryNthMissDrops(s1, i + 1);
      Distribute(Limit(s), |Dropped(s, r, i + 1)|);
    } else {
      assert Dropped(s, s, i) == {} && NewMisses(s, i) == {};
    }
  }

  lemma Distribute(n: nat, k: nat)
    ensures n * (k + 1) == n * k + n
  {
  }

  lemma MissStep(s: St, i: nat)
    requires s.Sized() && i < MAX_THREADS && s.streak < Limit(s) && NoneOnTime(s, i)
    ensures var s1 := Watched(s, i);
      && s1.streak < Limit(s1) == Limit(s) && NoneOnTime(s1, i + 1)
      && (forall t | IsThread(t) && t != i :: s1.threads[t] == s.threads[t])
      && s1.streak + (if s1.threads[i].priority != s.threads[i].priority then Limit(s) else 0)
         == s.streak + (if NewMiss(s, i) then 1 else 0)
  {
  }

  lemma NewMissesSplit(s: St, i: nat)
    requires s.Sized() && i < MAX_THREADS
    ensures NewMisses(Watched(s, i), i + 1) == NewMisses(s, i + 1)
    ensures |NewMisses(s, i)| == |NewMisses(s, i + 1)| + if NewMiss(s, i) then 1 else 0
  {
    if NewMiss(s, i) {
      assert NewMisses(s, i) == NewMisses(s, i + 1) + {i};
    } else {
      assert NewMisses(s, i) == NewMisses(s, i + 1);
    }
  }

  lemma DroppedSplit(s: St, s1: St, r: St, i: nat)
    requires s.Sized() && s1.Sized() && r.Sized() && i < MAX_THREADS
    requires forall t | IsThread(t) && t != i :: s1.threads[t] == s.threads[t]
    ensures Dropped(s1, r, i + 1) == Dropped(s, r, i + 1)
    ensures |Dropped(s, r, i)| == |Dropped(s, r, i + 1)| + if r.threads[i].priority != s.threads[i].priority then 1
        else 0
  {
    if r.threads[i].priority != s.threads[i].priority {
      assert Dropped(s, r, i) == Dropped(s, r, i + 1) + {i};
    } else {
      assert Dropped(s, r, i) == Dropped(s, r, i + 1);
    }
  }

  lemma RequeuedGood(s: St, due: nat)
    requires Good(s, due) && Runs(s)
    ensures Good(Requeued(s), due)
    ensures var l := NextLevel(s.threads[s.current].priority); var r := Requeued(s);
      && l <= REALTIME && r.place == s.place[s.current := Ready(l)]
      && r.threads == s.threads[s.current := r.threads[s.current]]
      && r.List(Ready(l)) == s.List(Ready(l)) + [s.current]
      && forall p {:trigger r.List(p)} | p != Ready(l) :: r.List(p) == s.List(p)
  {
    assert ThreadOk(s, s.current, due);
    var l := NextLevel(s.threads[s.current].priority);
    PutGood(s, due, Ready(l), |s.List(Ready(l))|, s.current, Requeued(s).threads[s.current]);
    assert Insert(s.List(Ready(l)), |s.List(Ready(l))|, s.current) == s.List(Ready(l)) + [s.current];
  }

  lemma ExpireInv(s: St, due: nat)
    requires Good(s, due) && Runs(s) && Alone(s, s.current)
    ensures Good(Expire(s), due) && Runs(Expire(s)) && Alone(Expire(s), Expire(s).current)
  {
    assert ThreadOk(s, s.current, due);
    var x := Charged(s.threads[s.current]);
    if x.slice > 0 {
      WithGood(s, due, s.current, x);
    } else {
      RequeuedGood(s, due);
      hide Good;
      YieldInv(Requeued(s), due);
    }
  }

  lemma TickOnGood(s: St)
    requires Good(s, s.ticks)
    ensures Good(s.(ticks := s.ticks + 1), s.ticks)
  {
    var s' := s.(ticks := s.ticks + 1);
    forall y | IsThread(y) ensures ThreadOk(s', y, s.ticks) {
      assert ThreadOk(s, y, s.ticks);
    }
    forall m: nat | m < |s'.mutexes| ensures MutexOk(s', m) {
      assert MutexOk(s, m);
    }
    OrderKept(s, s', s.ticks, 0);
  }

  /** The states between the steps of a tick. */
  lemma TickSteps(s: St)
    requires Inv(s)
    ensures var s1 := WakeAll(s.(ticks := s.ticks + 1)); var s2 := Watch(s1, 0);
      && Good(s1, s1.ticks) && Good(s2, s2.ticks) && s1.ticks == s.ticks + 1 && s1.current == s.current
      && Runs(s1) && Alone(s1, s1.current) && Runs(s2) && Alone(s2, s2.current)
      && s2 == s1.(threads := s2.threads, streak := s2.streak)
      && AllWatched(s1, s2) && AllWoken(s.(ticks := s.ticks + 1), s1)
  {
    TickOnGood(s);
    hide Good, WakeAll;
    var s0 := s.(ticks := s.ticks + 1);
    WakesExactlyDue(s0, s.ticks);
    var s1 := WakeAll(s0);
    assert WokenIf(s0, s1, s.current);
    WokenAlone(s0, s1);
    WatchGood(s1, s1.ticks, 0);
  }

  lemma WokenAlone(s: St, r: St)
    requires AllWoken(s, r) && Alone(s, s.current)
    ensures Alone(r, s.current)
  {
    forall t | 0 <= t < |r.place| ensures !r.place[t].Limbo? && (r.place[t].Running? ==> t == s.current) {
      assert WokenIf(s, r, t);
    }
  }

  lemma TickInv(s: St)
    requires Inv(s)
    ensures Inv(Tick(s))
  {
    assert s.Sized();
    hide Good, Watch, WakeAll, AllWoken, AllWatched;
    TickSteps(s);
    var s2 := Watch(WakeAll(s.(ticks := s.ticks + 1)), 0);
    ExpireInv(s2, s2.ticks);
  }

  // ---------------------------------------------------------------- the starvation sweep

  function Rescued(x: Tcb): Tcb {
    x.(priority := x.base, slice := Quantum(x.base))
  }

  /** The threads of queue l from the last r on. */
  function Tail(s: St, l: nat, r: nat): seq<int>
    requires r <= |s.List(Ready(l))|
  {
    s.List(Ready(l))[|s.List(Ready(l))| - r..]
  }

  lemma RescueMoves(s: St, due: nat, l: nat, k: nat)
    requires Good(s, due) && l < LEVELS && k < |s.List(Ready(l))|
    ensures var t := s.List(Ready(l))[k];
      && IsThread(t) && s.place[t] == Ready(l) && var s', b := Rescue(s, l, k), s.threads[t].base;
      && Good(s', due) && s'.place == s.place[t := Ready(b)]
      && s'.threads == s.threads[t := Rescued(s.threads[t])]
      && s' == s.(threads := s'.threads, place := s'.place, lists := s'.lists)
      && s'.List(Ready(l)) == (if b == l then Insert(Cut(s.List(Ready(l)), k), 0, t) else Cut(s.List(Ready(l)), k))
      && forall p {:trigger s'.List(p)} | p != Ready(l) && p != Ready(b) :: s'.List(p) == s.List(p)
  {
    Standing(s, due, Ready(l));
    var t := s.List(Ready(l))[k];
    assert ThreadOk(s, t, due);
    TookGood(s, due, Ready(l), k);
    hide Good, Insert, Cut;
    PutGood(s.Took(Ready(l), k), due, Ready(s.threads[t].base), 0, t, Rescued(s.threads[t]));
  }

  /** Taking a thread out of the middle leaves those behind it where they were, wherever it
      goes. */
  lemma RescueGood(s: St, due: nat, l: nat, r: nat)
    requires Good(s, due) && l < LEVELS && 0 < r <= |s.List(Ready(l))|
    ensures var k := |s.List(Ready(l))| - r; var t := s.List(Ready(l))[k];
      && IsThread(t) && s.place[t] == Ready(l) && var s' := Rescue(s, l, k);
      && Good(s', due) && s'.place == s.place[t := Ready(s.threads[t].base)]
      && s'.threads == s.threads[t := Rescued(s.threads[t])]
      && s' == s.(threads := s'.threads, place := s'.place, lists := s'.lists)
      && r - 1 <= |s'.List(Ready(l))| && Tail(s', l, r - 1) == Tail(s, l, r)[1..]
      && forall p {:trigger s'.List(p)} | p != Ready(l) && p != Ready(s.threads[t].base) :: s'.List(p) == s.List(p)
  {
    var k := |s.List(Ready(l))| - r;
    RescueMoves(s, due, l, k);
    hide Parted, ThreadsOk, InDueOrder, MutexesOk, Counted, Rescue;
    CutTail(s.List(Ready(l)), k, s.List(Ready(l))[k]);
  }

  lemma CutTail(q: seq<int>, k: nat, t: int)
    requires k < |q|
    ensures Cut(q, k)[k..] == q[k + 1..] && Insert(Cut(q, k), 0, t)[k + 1..] == q[k + 1..]
  {
  }

  ghost predicate RescuedIf(s: St, s': St, t: int, tail: seq<int>)
    requires s.Sized() && s'.Sized() && IsThread(t)
  {
    if t in tail && Starving(s, t)
    then s'.place[t] == Ready(s.threads[t].base) && s'.threads[t] == Rescued(s.threads[t])
    else s'.place[t] == s.place[t] && s'.threads[t] == s.threads[t]
  }

  ghost predicate AllRescuedIf(s: St, s': St, tail: seq<int>) {
    && s.Sized() && s'.Sized() && s' == s.(threads := s'.threads, place := s'.place, lists := s'.lists)
    && forall t {:trigger RescuedIf(s, s', t, tail)} | IsThread(t) :: RescuedIf(s, s', t, tail)
  }

  lemma OneRescued(s: St, s': St, h: int)
    requires s.Sized() && IsThread(h)
    requires if Starving(s, h)
             then s' == s.(threads := s.threads[h := Rescued(s.threads[h])],
                           place := s.place[h := Ready(s.threads[h].base)], lists := s'.lists)
             else s' == s
    ensures AllRescuedIf(s, s', [h])
  {
    forall t | IsThread(t) ensures RescuedIf(s, s', t, [h]) {
    }
  }

  lemma SweepStep(s: St, due: nat, l: nat, r: nat)
    requires Good(s, due) && l < LEVELS && 0 < r <= |s.List(Ready(l))|
    ensures var tail := Tail(s, l, r); var s1 := RescueIf(s, l, |s.List(Ready(l))| - r);
      && Good(s1, due) && r - 1 <= |s1.List(Ready(l))| && Tail(s1, l, r - 1) == tail[1..]
      && AllRescuedIf(s, s1, [tail[0]])
  {
    RescueGood(s, due, l, r);
    hide Parted, ThreadsOk, InDueOrder, MutexesOk, Counted, Rescue, AllRescuedIf;
    OneRescued(s, RescueIf(s, l, |s.List(Ready(l))| - r), Tail(s, l, r)[0]);
  }

  lemma TailSplits(s: St, due: nat, l: nat, r: nat)
    requires Good(s, due) && l < LEVELS && 0 < r <= |s.List(Ready(l))|
    ensures var tail := Tail(s, l, r); |tail| == r && tail[0] !in tail[1..] && tail == [tail[0]] + tail[1..]
  {
    Standing(s, due, Ready(l));
  }

  lemma SweepJoin(s: St, s1: St, s': St, h: int, tail: seq<int>)
    requires AllRescuedIf(s, s1, [h]) && AllRescuedIf(s1, s', tail) && h !in tail
    ensures AllRescuedIf(s, s', [h] + tail)
  {
    forall t | IsThread(t) ensures RescuedIf(s, s', t, [h] + tail) {
      assert RescuedIf(s, s1, t, [h]) && RescuedIf(s1, s', t, tail);
    }
  }

  lemma {:induction false} SweepLevelIs(s: St, due: nat, l: nat, r: nat)
    requires Good(s, due) && l < LEVELS && r <= |s.List(Ready(l))|
    ensures Good(SweepLevel(s, l, r), due) && AllRescuedIf(s, SweepLevel(s, l, r), Tail(s, l, r))
    decreases r
  {
    hide Parted, ThreadsOk, InDueOrder, MutexesOk, Counted, AllRescuedIf, RescueIf, Tail;
    if r > 0 {
      SweepStep(s, due, l, r);
      TailSplits(s, due, l, r);
      var s1, tail := RescueIf(s, l, |s.List(Ready(l))| - r), Tail(s, l, r);
      SweepLevelIs(s1, due, l, r - 1);
      SweepJoin(s, s1, SweepLevel(s, l, r), tail[0], tail[1..]);
    } else {
      NoTail(s, l);
      NoneRescued(s);
    }
  }

  lemma NoTail(s: St, l: nat)
    ensures Tail(s, l, 0) == []
  {
  }

  lemma NoneRescued(s: St)
    requires s.Sized()
    ensures AllRescuedIf(s, s, [])
  {
    forall t | IsThread(t) ensures RescuedIf(s, s, t, []) {
    }
  }

  ghost predicate SweptIf(s: St, s': St, t: int, low: nat, high: nat)
    requires s.Sized() && s'.Sized() && IsThread(t)
  {
    if s.place[t].Ready? && low <= s.place[t].level <= high && Starving(s, t)
    then s'.place[t] == Ready(s.threads[t].base) && s'.threads[t] == Rescued(s.threads[t])
    else s'.place[t] == s.place[t] && s'.threads[t] == s.threads[t]
  }

  lemma SweepQueueIs(s: St, due: nat, l: nat)
    requires Good(s, due) && l < LEVELS
    ensures var s' := SweepQueue(s, l);
      && Good(s', due) && s' == s.(threads := s'.threads, place := s'.place, lists := s'.lists)
      && forall t {:trigger SweptIf(s, s', t, l, l)} | IsThread(t) :: SweptIf(s, s', t, l, l)
  {
    Standing(s, due, Ready(l));
    hide Good;
    SweepLevelIs(s, due, l, |s.List(Ready(l))|);
    hide SweepLevel;
    var s' := SweepQueue(s, l);
    var tail := Tail(s, l, |s.List(Ready(l))|);
    assert tail == s.List(Ready(l));
    forall t | IsThread(t) ensures SweptIf(s, s', t, l, l) {
      assert RescuedIf(s, s', t, tail);
      assert t in s.List(Ready(l)) <==> s.place[t] == Ready(l);
    }
  }

  /** The sweep moves exactly the starving threads of queues LOW and NORMAL, each to the
      queue of its base priority with a fresh slice (sched.c:337-352). */
  lemma SweepMovesTheStarving(s: St, due: nat)
    requires Good(s, due) && s.ticks % 200 == 0
    ensures var s' := Sweep(s);
      && Good(s', due) && s' == s.(threads := s'.threads, place := s'.place, lists := s'.lists)
      && forall t {:trigger SweptIf(s, s', t, LOW, NORMAL)} | IsThread(t) :: SweptIf(s, s', t, LOW, NORMAL)
  {
    SweepQueueIs(s, due, LOW);
    hide Good, SweepQueue;
    var s1 := SweepQueue(s, LOW);
    SweepQueueIs(s1, due, NORMAL);
    var s' := SweepQueue(s1, NORMAL);
    forall t | IsThread(t) ensures SweptIf(s, s', t, LOW, NORMAL) {
      assert SweptIf(s, s1, t, LOW, LOW) && SweptIf(s1, s', t, NORMAL, NORMAL);
    }
  }

  lemma SweepInv(s: St)
    requires Inv(s)
    ensures Inv(Sweep(s))
  {
    if s.ticks % 200 == 0 {
      SweepMovesTheStarving(s, s.ticks);
      hide Good, Sweep;
      var s' := Sweep(s);
      forall t | IsThread(t) ensures !s'.place[t].Limbo? && (s'.place[t].Running? ==> t == s.current) {
        assert SweptIf(s, s', t, LOW, NORMAL);
      }
      assert SweptIf(s, s', s.current, LOW, NORMAL);
    }
  }

  // ---------------------------------------------------------------- creation and exit

  lemma {:induction false} FreeSlotIs(s: St, i: nat)
    requires s.Sized() && i <= MAX_THREADS
    ensures var t := FreeSlot(s, i);
      if t == NIL then forall x {:trigger s.threads[x]} | i <= x < MAX_THREADS ::
        !s.threads[x].state.Terminated? && !s.threads[x].state.Embryo?
      else i <= t < MAX_THREADS && (s.threads[t].state.Terminated? || s.threads[t].state.Embryo?)
    decreases MAX_THREADS - i
  {
    if i < MAX_THREADS {
      FreeSlotIs(s, i + 1);
    }
  }

  function Slots(n: nat): (r: set<int>)
    ensures |r| == n && forall t :: t in r <==> 0 <= t < n
  {
    if n == 0 then {} else Slots(n - 1) + {n - 1}
  }

  lemma AllLive(place: seq<Place>)
    requires |place| == MAX_THREADS
    ensures |Live(place)| == MAX_THREADS <==> forall t | IsThread(t) :: !place[t].Gone?
  {
    hide Slots;
    var all := Slots(MAX_THREADS);
    if t :| IsThread(t) && place[t].Gone? {
      assert Live(place) <= all - {t};
      SubsetSize(Live(place), all - {t});
    } else {
      assert Live(place) == all;
    }
  }

  lemma AtMost(place: seq<Place>)
    requires |place| == MAX_THREADS
    ensures |Live(place)| <= MAX_THREADS
  {
    SubsetSize(Live(place), Slots(MAX_THREADS));
  }

  /** A slot is free exactly when the thread counter is below MAX_THREADS, so creation fails
      exactly when all slots hold live threads (sched.c:166, 177). */
  lemma CreateFails(s: St, due: nat)
    requires Good(s, due)
    ensures s.count < MAX_THREADS <==> IsThread(FreeSlot(s, 0))
    ensures IsThread(FreeSlot(s, 0)) ==> s.place[FreeSlot(s, 0)].Gone?
  {
    hide Parted, MutexesOk, FreeSlot, Live;
    FreeSlotIs(s, 0);
    AllLive(s.place);
    AtMost(s.place);
    var t := FreeSlot(s, 0);
    if t == NIL {
      forall x | IsThread(x) ensures !s.place[x].Gone? {
        assert ThreadOk(s, x, due) && !s.threads[x].state.Terminated?;
      }
    } else {
      assert ThreadOk(s, t, due);
    }
  }

  lemma FilledGood(s: St, due: nat, t: int, priority: nat)
    requires Good(s, due) && IsThread(t) && s.place[t].Gone? && priority <= REALTIME
    ensures Good(Filled(s, t, Born(s.nextTid, priority)), due)
  {
    var s' := Filled(s, t, Born(s.nextTid, priority));
    hide Parted;
    PartedShifted(s, s', t, Limbo);
    assert Live(s'.place) == Live(s.place) + {t};
    forall y | IsThread(y) ensures ThreadOk(s', y, due) {
      assert ThreadOk(s, y, due);
    }
    forall m: nat | m < |s'.mutexes| ensures MutexOk(s', m) {
      assert MutexOk(s, m);
    }
    OrderKept(s, s', due, t);
  }

  lemma WithSame(s: St, t: int)
    requires s.Sized() && IsThread(t)
    ensures s.With(t, s.threads[t]) == s
  {
  }

  lemma CreateInv(s: St, priority: nat)
    requires Inv(s) && (priority != ISR || s.count >= MAX_THREADS)
    ensures Inv(Create(s, priority))
  {
    var p := if priority >= LEVELS then NORMAL else priority;
    var t := FreeSlot(s, 0);
    CreateFails(s, s.ticks);
    if IsThread(t) {
      var s1 := Filled(s, t, Born(s.nextTid, p));
      FilledGood(s, s.ticks, t, p);
      hide Good, FreeSlot, Insert;
      WithSame(s1, t);
      PutGood(s1, s.ticks, Ready(p), |s1.List(Ready(p))|, t, s1.threads[t]);
    }
  }

  lemma ExitInv(s: St)
    requires Inv(s) && s.current != s.idle && forall m {:trigger s.mutexes[m]} | 0 <= m < |s.mutexes| ::
        s.mutexes[m].owner != s.current
    ensures Inv(Exit(s))
  {
    LeavingGood(s);
    hide Good;
    YieldInv(Leaving(s), s.ticks);
  }

  lemma LeavingGood(s: St)
    requires Inv(s) && s.current != s.idle && forall m {:trigger s.mutexes[m]} | 0 <= m < |s.mutexes| ::
        s.mutexes[m].owner != s.current
    ensures Between(Leaving(s), s.ticks)
  {
    var s', t := Leaving(s), s.current;
    hide Parted;
    PartedShifted(s, s', t, Gone);
    assert Live(s'.place) == Live(s.place) - {t} && t in Live(s.place);
    forall y | IsThread(y) ensures ThreadOk(s', y, s.ticks) {
      assert ThreadOk(s, y, s.ticks);
    }
    forall m: nat | m < |s'.mutexes| ensures MutexOk(s', m) {
      assert MutexOk(s, m);
    }
    OrderKept(s, s', s.ticks, t);
  }

  // ---------------------------------------------------------------- mutexes

  lemma OwnerGood(s: St, due: nat, m: nat, x: Mutex)
    requires Good(s, due) && m < |s.mutexes| && MutexOk(s.(mutexes := s.mutexes[m := x]), m)
    ensures Good(s.(mutexes := s.mutexes[m := x]), due)
  {
    var s' := s.(mutexes := s.mutexes[m := x]);
    hide Parted;
    PartedKept(s, s');
    forall y | IsThread(y) ensures ThreadOk(s', y, due) {
      assert ThreadOk(s, y, due);
    }
    forall n: nat | n < |s'.mutexes| ensures MutexOk(s', n) {
      assert MutexOk(s, n);
    }
    OrderKept(s, s', due, 0);
  }

  /** A mutex is free exactly when it has no owner. */
  lemma FreeIff(s: St, due: nat, m: nat)
    requires Good(s, due) && m < |s.mutexes|
    ensures s.mutexes[m].locked == 0 <==> s.mutexes[m].owner == NIL
    ensures MutexOk(s, m)
  {
    assert MutexOk(s, m);
    if IsThread(s.mutexes[m].owner) {
      assert ThreadOk(s, s.mutexes[m].owner, due);
    }
  }

  lemma InheritGood(s: St, due: nat, o: int)
    requires Good(s, due) && Runs(s) && (IsThread(o) ==> o != s.current)
    ensures Good(Inherit(s, o), due) && Inherit(s, o) == s.(threads := Inherit(s, o).threads)
    ensures forall t {:trigger s.threads[t]} | IsThread(t) ::
        Inherit(s, o).threads[t] == s.threads[t].(priority := Inherit(s, o).threads[t].priority)
    ensures forall t {:trigger s.threads[t]} | IsThread(t) && t != o :: Inherit(s, o).threads[t] == s.threads[t]
  {
    assert ThreadOk(s, s.current, due);
    if IsThread(o) && s.threads[o].priority < s.threads[s.current].priority {
      assert ThreadOk(s, o, due);
      WithGood(s, due, o, s.threads[o].(priority := s.threads[s.current].priority));
    }
  }

  lemma WaitingGood(s: St, m: nat)
    requires Inv(s) && s.current != s.idle && m < |s.mutexes| && s.mutexes[m].locked != 0
        && s.mutexes[m].owner != s.current
    ensures Between(Waiting(Inherit(s, s.mutexes[m].owner), m), s.ticks)
  {
    FreeIff(s, s.ticks, m);
    InheritGood(s, s.ticks, s.mutexes[m].owner);
    assert ThreadOk(s, s.current, s.ticks);
    hide Good;
    var s1 := Inherit(s, s.mutexes[m].owner);
    PutGood(s1, s.ticks, Blocked(m), 0, s.current,
            s1.threads[s.current].(blockedOn := s.mutexes[m].owner, state := IsBlocked));
  }

  lemma LockInv(s: St, m: nat)
    requires Inv(s) && m < |s.mutexes| && s.mutexes[m].owner != s.current
    requires s.mutexes[m].locked != 0 ==> s.current != s.idle
    ensures Inv(Lock(s, m))
  {
    FreeIff(s, s.ticks, m);
    if s.mutexes[m].locked == 0 {
      OwnerGood(s, s.ticks, m, Mutex(s.threads[s.current].tid, s.current));
    } else {
      WaitingGood(s, m);
      hide Good;
      YieldInv(Waiting(Inherit(s, s.mutexes[m].owner), m), s.ticks);
    }
  }

  lemma RestoredGood(s: St, due: nat)
    requires Good(s, due) && Runs(s)
    ensures Good(Restored(s), due)
  {
    assert ThreadOk(s, s.current, due);
    WithGood(s, due, s.current, s.threads[s.current].(priority := s.threads[s.current].base));
  }

  lemma HandOverGood(s: St, due: nat, m: nat)
    requires Good(s, due) && m < |s.mutexes| && IsThread(s.Head(Blocked(m)))
    ensures var t := s.Head(Blocked(m)); var p := s.threads[t].priority; var r := HandOver(s, m);
      && Good(r, due) && p <= REALTIME && s.place[t] == Blocked(m) && t == s.List(Blocked(m))[0]
      && r.place == s.place[t := Ready(p)] && r.mutexes == s.mutexes[m := Mutex(s.threads[t].tid, t)]
      && r.threads == s.threads[t := s.threads[t].(blockedOn := NIL, state := IsReady)]
      && r.List(Blocked(m)) == Cut(s.List(Blocked(m)), 0) && r.List(Ready(p)) == Insert(s.List(Ready(p)), 0, t)
      && forall q {:trigger r.List(q)} | q != Blocked(m) && q != Ready(p) :: r.List(q) == s.List(q)
  {
    Standing(s, due, Blocked(m));
    var t := s.Head(Blocked(m));
    var x := s.threads[t];
    assert ThreadOk(s, t, due);
    TookGood(s, due, Blocked(m), 0);
    hide Good;
    var s1 := s.Took(Blocked(m), 0);
    OwnerGood(s1, due, m, Mutex(x.tid, t));
    PutGood(s1.(mutexes := s1.mutexes[m := Mutex(x.tid, t)]), due, Ready(x.priority), 0, t,
            x.(blockedOn := NIL, state := IsReady));
  }

  lemma UnlockInv(s: St, m: nat)
    requires Inv(s) && m < |s.mutexes|
    ensures Inv(Unlock(s, m))
  {
    if s.mutexes[m].owner == s.current {
      RestoredGood(s, s.ticks);
      var s1 := Restored(s);
      Standing(s1, s.ticks, Blocked(m));
      hide Good;
      if IsThread(s1.Head(Blocked(m))) {
        HandOverGood(s1, s.ticks, m);
      } else {
        OwnerGood(s1, s.ticks, m, Mutex(0, NIL));
      }
    }
  }

  lemma BoostInv(s: St, t: int, priority: nat)
    requires Inv(s) && IsThread(t) && (priority <= REALTIME || s.place[t].Gone?)
    ensures Inv(Boost(s, t, priority))
  {
    assert ThreadOk(s, t, s.ticks);
    if priority > s.threads[t].priority {
      WithGood(s, s.ticks, t, s.threads[t].(priority := priority, slice := Quantum(priority)));
    }
  }

  lemma SetDeadlineInv(s: St, t: int, ms: nat)
    requires Inv(s) && IsThread(t)
    ensures Inv(SetDeadline(s, t, ms))
  {
    assert ThreadOk(s, t, s.ticks);
    WithGood(s, s.ticks, t, SetDeadline(s, t, ms).threads[t]);
  }
}

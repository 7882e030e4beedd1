/** Threads and the lists they stand in (kernel/sched/sched.h:98-139, kernel/sched/sched.c:32-45).

    A thread is the index of its slot in g_threads, and NIL stands for a NULL pointer. */
module SchedPlaces {
  import opened Basics

  const MAX_THREADS := 128
  const LEVELS := 6
  const NIL := -1

  /** Where a thread stands. A thread that runs, is gone, or was just taken off a list is in
      no list. */
  datatype Place = Gone | Running | Limbo | Ready(level: nat) | Asleep | Blocked(mutex: nat)

  predicate IsThread(t: int) {
    0 <= t < MAX_THREADS
  }

  predicate IsList(mutexes: nat, p: Place) {
    (p.Ready? && p.level < LEVELS) || p.Asleep? || (p.Blocked? && p.mutex < mutexes)
  }

  predicate Outside(p: Place) {
    p.Gone? || p.Running? || p.Limbo?
  }

  function At(q: seq<int>, i: int): int {
    if 0 <= i < |q| then q[i] else NIL
  }

  function Cut(q: seq<int>, k: int): seq<int>
    requires 0 <= k < |q|
  {
    q[..k] + q[k + 1..]
  }

  function Insert(q: seq<int>, k: int, t: int): seq<int>
    requires 0 <= k <= |q|
  {
    q[..k] + [t] + q[k..]
  }

  lemma CutMembers(q: seq<int>, k: int)
    requires Distinct(q) && 0 <= k < |q|
    ensures Distinct(Cut(q, k)) && forall x :: x in Cut(q, k) <==> x in q && x != q[k]
  {
    forall x ensures x in Cut(q, k) <==> x in q && x != q[k] {
      if x in q && x != q[k] {
        var j :| 0 <= j < |q| && q[j] == x;
        assert Cut(q, k)[if j < k then j else j - 1] == x;
      }
    }
  }

  lemma InsertMembers(q: seq<int>, k: int, t: int)
    requires Distinct(q) && 0 <= k <= |q| && t !in q
    ensures Distinct(Insert(q, k, t)) && forall x :: x in Insert(q, k, t) <==> x == t || x in q
  {
    assert q == q[..k] + q[k..];
    assert Insert(q, k, t)[k] == t;
  }

  /** The threads of list p are those whose place is p, each once. */
  ghost predicate Members(lists: map<Place, seq<int>>, place: seq<Place>, p: Place)
    requires p in lists
  {
    Distinct(lists[p]) && forall t | t in lists[p] :: 0 <= t < |place| && place[t] == p
  }

  ghost predicate Placed(lists: map<Place, seq<int>>, place: seq<Place>, t: int)
    requires 0 <= t < |place|
  {
    if place[t] in lists then t in lists[place[t]] else Outside(place[t])
  }

  /** Every thread stands in the list of its place, or outside the lists, and in no other. */
  ghost predicate Partition(lists: map<Place, seq<int>>, place: seq<Place>, mutexes: nat) {
    && |place| == MAX_THREADS
    && (forall p {:trigger p in lists} :: p in lists <==> IsList(mutexes, p))
    && (forall p {:trigger Members(lists, place, p)} | p in lists :: Members(lists, place, p))
    && (forall t {:trigger Placed(lists, place, t)} | IsThread(t) :: Placed(lists, place, t))
  }

  lemma Join(lists: map<Place, seq<int>>, place: seq<Place>, n: nat, p: Place, q: seq<int>, t: int)
    requires Partition(lists, place, n) && p in lists && IsThread(t) && Outside(place[t])
    requires Distinct(q) && forall x :: x in q <==> x == t || x in lists[p]
    ensures Partition(lists[p := q], place[t := p], n)
  {
    var lists', place' := lists[p := q], place[t := p];
    assert !IsList(n, place[t]) && place[t] !in lists;
    forall r | r in lists' ensures Members(lists', place', r) {
      assert Members(lists, place, r);
    }
    forall x | IsThread(x) ensures Placed(lists', place', x) {
      assert Placed(lists, place, x);
    }
  }

  lemma Leave(lists: map<Place, seq<int>>, place: seq<Place>, n: nat, p: Place, q: seq<int>, t: int, to: Place)
    requires Partition(lists, place, n) && p in lists && IsThread(t) && place[t] == p && Outside(to)
    requires Distinct(q) && forall x :: x in q <==> x != t && x in lists[p]
    ensures Partition(lists[p := q], place[t := to], n)
  {
    var lists', place' := lists[p := q], place[t := to];
    assert !IsList(n, to) && to !in lists;
    forall r | r in lists' ensures Members(lists', place', r) {
      assert Members(lists, place, r);
    }
    forall x | IsThread(x) ensures Placed(lists', place', x) {
      assert Placed(lists, place, x);
    }
  }

  lemma Shift(lists: map<Place, seq<int>>, place: seq<Place>, n: nat, t: int, to: Place)
    requires Partition(lists, place, n) && IsThread(t) && Outside(place[t]) && Outside(to)
    ensures Partition(lists, place[t := to], n)
  {
    var place' := place[t := to];
    assert !IsList(n, place[t]) && place[t] !in lists && !IsList(n, to) && to !in lists;
    forall r | r in lists ensures Members(lists, place', r) {
      assert Members(lists, place, r);
    }
    forall x | IsThread(x) ensures Placed(lists, place', x) {
      assert Placed(lists, place, x);
    }
  }

  /** Who stands in a list. */
  lemma InList(lists: map<Place, seq<int>>, place: seq<Place>, n: nat, p: Place)
    requires Partition(lists, place, n) && IsList(n, p)
    ensures p in lists && |place| == MAX_THREADS && Distinct(lists[p])
    ensures forall t {:trigger t in lists[p]} {:trigger place[t]} | IsThread(t) :: t in lists[p] <==> place[t] == p
    ensures forall t | t in lists[p] :: IsThread(t)
    ensures forall k {:trigger lists[p][k]} | 0 <= k < |lists[p]| :: IsThread(lists[p][k]) && place[lists[p][k]] == p
  {
    assert p in lists && Members(lists, place, p);
    forall t | IsThread(t) ensures t in lists[p] <==> place[t] == p {
      assert Placed(lists, place, t);
    }
    forall k | 0 <= k < |lists[p]| ensures IsThread(lists[p][k]) && place[lists[p][k]] == p {
      assert lists[p][k] in lists[p];
    }
  }
}

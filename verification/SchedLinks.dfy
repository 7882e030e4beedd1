/** How the lists of threads are threaded through the links of the control blocks
    (kernel/sched/sched.h:136-138, kernel/sched/sched.c:37-111).

    Ready queues, the sleep list and the wait lists of the mutexes all use the same next and
    prev fields; the last two do not use prev. */
module SchedLinks {
  import opened Basics
  import opened SchedPlaces

  datatype Link = Link(next: int, prev: int)

  datatype Queue = Queue(head: int, tail: int)

  /** The links of all threads, and where each list begins. */
  datatype Chains = Chains(links: seq<Link>, queues: seq<Queue>, sleepQ: int, waiters: seq<int>)

  const CLEAR := Link(NIL, NIL)

  /** Thread i of the list points on to the next one, and back to the one before it if the
      list is doubly linked. */
  ghost predicate Node(h: seq<Link>, q: seq<int>, i: int, double: bool)
    requires 0 <= i < |q|
  {
    && 0 <= q[i] < |h|
    && h[q[i]].next == At(q, i + 1)
    && h[q[i]].prev == if double then At(q, i - 1) else NIL
  }

  ghost predicate Nodes(h: seq<Link>, q: seq<int>, double: bool) {
    forall i {:trigger Node(h, q, i, double)} | 0 <= i < |q| :: Node(h, q, i, double)
  }

  /** The queue's threads, through the links, are q. */
  ghost predicate QueueOk(h: seq<Link>, u: Queue, q: seq<int>) {
    Nodes(h, q, true) && u.head == At(q, 0) && u.tail == At(q, |q| - 1)
  }

  /** A singly linked list with head hd. */
  ghost predicate StackOk(h: seq<Link>, hd: int, q: seq<int>) {
    Nodes(h, q, false) && hd == At(q, 0)
  }

  ghost predicate ListOk(c: Chains, lists: map<Place, seq<int>>, p: Place)
    requires p in lists
  {
    match p
    case Ready(l) => l < |c.queues| && QueueOk(c.links, c.queues[l], lists[p])
    case Asleep => StackOk(c.links, c.sleepQ, lists[p])
    case Blocked(m) => m < |c.waiters| && StackOk(c.links, c.waiters[m], lists[p])
    case _ => false
  }

  ghost predicate Clear(c: Chains, place: seq<Place>, t: int)
    requires 0 <= t < |place| && t < |c.links|
  {
    Outside(place[t]) ==> c.links[t] == CLEAR
  }

  /** Every list is what its links spell out, from its head on, and ends there; threads
      outside the lists have clear links. */
  ghost predicate Threaded(c: Chains, lists: map<Place, seq<int>>, place: seq<Place>) {
    && |c.links| == MAX_THREADS && |place| == MAX_THREADS && |c.queues| == LEVELS
    && (forall p {:trigger ListOk(c, lists, p)} | p in lists :: ListOk(c, lists, p))
    && (forall t {:trigger Clear(c, place, t)} | IsThread(t) :: Clear(c, place, t))
  }

  ghost predicate Linked(c: Chains, lists: map<Place, seq<int>>, place: seq<Place>) {
    Partition(lists, place, |c.waiters|) && Threaded(c, lists, place)
  }

  // ---------------------------------------------------------------- one list

  /** queue_push_back (sched.c:68-77). */
  function PushBackT(h: seq<Link>, u: Queue, t: int): seq<Link>
    requires 0 <= t < |h| && -1 <= u.tail < |h|
  {
    var h1 := h[t := Link(NIL, u.tail)];
    if u.tail != NIL then h1[u.tail := h1[u.tail].(next := t)] else h1
  }

  function PushBackQ(u: Queue, t: int): Queue {
    Queue(if u.tail != NIL then u.head else t, t)
  }

  /** queue_push_front (sched.c:79-88). */
  function PushFrontT(h: seq<Link>, u: Queue, t: int): seq<Link>
    requires 0 <= t < |h| && -1 <= u.head < |h|
  {
    var h1 := h[t := Link(u.head, NIL)];
    if u.head != NIL then h1[u.head := h1[u.head].(prev := t)] else h1
  }

  function PushFrontQ(u: Queue, t: int): Queue {
    Queue(t, if u.head != NIL then u.tail else t)
  }

  /** queue_remove (sched.c:104-111); for the head it is what queue_pop_front does
      (sched.c:90-102). */
  function RemoveT(h: seq<Link>, t: int): seq<Link>
    requires 0 <= t < |h| && -1 <= h[t].prev < |h| && -1 <= h[t].next < |h| && h[t].prev != t
  {
    var h1 := if h[t].prev != NIL then h[h[t].prev := h[h[t].prev].(next := h[t].next)] else h;
    var h2 := if h1[t].next != NIL then h1[h1[t].next := h1[h1[t].next].(prev := h1[t].prev)] else h1;
    h2[t := CLEAR]
  }

  function RemoveQ(h: seq<Link>, u: Queue, t: int): Queue
    requires 0 <= t < |h|
  {
    Queue(if h[t].prev != NIL then u.head else h[t].next, if h[t].next != NIL then u.tail else h[t].prev)
  }

  lemma PushBackOk(h: seq<Link>, u: Queue, q: seq<int>, t: int)
    requires QueueOk(h, u, q) && Distinct(q) && 0 <= t < |h| && t !in q
    ensures -1 <= u.tail < |h| && (u.tail == NIL || u.tail in q) && |PushBackT(h, u, t)| == |h|
    ensures QueueOk(PushBackT(h, u, t), PushBackQ(u, t), Insert(q, |q|, t))
    ensures forall x | 0 <= x < |h| && x !in q && x != t :: PushBackT(h, u, t)[x] == h[x]
  {
    var n := |q|;
    if n > 0 {
      assert Node(h, q, n - 1, true) && q[n - 1] in q;
    }
    var h', q' := PushBackT(h, u, t), Insert(q, n, t);
    assert q' == q + [t];
    forall i | 0 <= i < |q'| ensures Node(h', q', i, true) {
      if i < n {
        assert Node(h, q, i, true) && q[i] in q;
      }
    }
  }

  lemma PushFrontOk(h: seq<Link>, u: Queue, q: seq<int>, t: int)
    requires QueueOk(h, u, q) && Distinct(q) && 0 <= t < |h| && t !in q
    ensures -1 <= u.head < |h| && (u.head == NIL || u.head in q) && |PushFrontT(h, u, t)| == |h|
    ensures QueueOk(PushFrontT(h, u, t), PushFrontQ(u, t), Insert(q, 0, t))
    ensures forall x | 0 <= x < |h| && x !in q && x != t :: PushFrontT(h, u, t)[x] == h[x]
  {
    if |q| > 0 {
      assert Node(h, q, 0, true) && q[0] in q;
    }
    var h', q' := PushFrontT(h, u, t), Insert(q, 0, t);
    assert q' == [t] + q;
    forall i | 0 <= i < |q'| ensures Node(h', q', i, true) {
      if i > 0 {
        assert Node(h, q, i - 1, true) && q[i - 1] in q;
      }
    }
  }

  /** The neighbours of place k. */
  lemma Around(h: seq<Link>, u: Queue, q: seq<int>, k: int)
    requires QueueOk(h, u, q) && Distinct(q) && 0 <= k < |q|
    ensures var t := q[k];
      && 0 <= t < |h| && h[t].prev == At(q, k - 1) && h[t].next == At(q, k + 1)
      && -1 <= h[t].prev < |h| && -1 <= h[t].next < |h| && h[t].prev != t && h[t].next != t
      && (h[t].prev == NIL <==> k == 0) && (h[t].next == NIL <==> k == |q| - 1)
  {
    assert Node(h, q, k, true);
    if k > 0 {
      assert Node(h, q, k - 1, true);
    }
    if k + 1 < |q| {
      assert Node(h, q, k + 1, true);
    }
  }

  lemma RemoveNode(h: seq<Link>, u: Queue, q: seq<int>, k: int, i: int)
    requires QueueOk(h, u, q) && Distinct(q) && 0 <= k < |q| && 0 <= i < |q| - 1
    requires var t := q[k]; 0 <= t < |h| && -1 <= h[t].prev < |h| && -1 <= h[t].next < |h| && h[t].prev != t
    ensures Node(RemoveT(h, q[k]), Cut(q, k), i, true)
  {
    Around(h, u, q, k);
    var j := if i < k then i else i + 1;
    assert Node(h, q, j, true);
    var q' := Cut(q, k);
    assert q'[i] == q[j];
    assert At(q', i - 1) == At(q, if i == k then k - 1 else j - 1);
    assert At(q', i + 1) == At(q, if i + 1 == k then k + 1 else j + 1);
  }

  lemma RemoveOk(h: seq<Link>, u: Queue, q: seq<int>, k: int)
    requires QueueOk(h, u, q) && Distinct(q) && 0 <= k < |q|
    ensures var t := q[k];
      && 0 <= t < |h| && -1 <= h[t].prev < |h| && -1 <= h[t].next < |h| && h[t].prev != t && |RemoveT(h, t)| == |h|
      && QueueOk(RemoveT(h, t), RemoveQ(h, u, t), Cut(q, k)) && RemoveT(h, t)[t] == CLEAR
      && forall x | 0 <= x < |h| && x !in q :: RemoveT(h, t)[x] == h[x]
  {
    Around(h, u, q, k);
    var h', q' := RemoveT(h, q[k]), Cut(q, k);
    assert At(q', 0) == (if k == 0 then At(q, 1) else q[0]);
    assert At(q', |q'| - 1) == if k == |q| - 1 then At(q, k - 1) else q[|q| - 1];
    forall i | 0 <= i < |q'| ensures Node(h', q', i, true) {
      RemoveNode(h, u, q, k, i);
    }
  }

  /** Threads outside q do not matter to it. */
  lemma NodesKept(h: seq<Link>, h': seq<Link>, q: seq<int>, double: bool)
    requires Nodes(h, q, double) && |h'| == |h|
    requires forall x | x in q && 0 <= x < |h| :: h'[x] == h[x]
    ensures Nodes(h', q, double)
  {
    forall i | 0 <= i < |q| ensures Node(h', q, i, double) {
      assert Node(h, q, i, double) && q[i] in q;
    }
  }

  /** Putting t in front of a singly linked list (sched.c:245-246, 500-501). */
  lemma StackPushOk(h: seq<Link>, hd: int, q: seq<int>, t: int)
    requires StackOk(h, hd, q) && 0 <= t < |h| && t !in q && h[t].prev == NIL
    ensures StackOk(h[t := h[t].(next := hd)], t, Insert(q, 0, t))
  {
    var h', q' := h[t := h[t].(next := hd)], Insert(q, 0, t);
    assert q' == [t] + q;
    forall i | 0 <= i < |q'| ensures Node(h', q', i, false) {
      if i > 0 {
        assert Node(h, q, i - 1, false) && q[i - 1] in q;
      }
    }
  }

  /** Taking the first thread off (sched.c:269-271, 516-517). */
  lemma StackPopOk(h: seq<Link>, hd: int, q: seq<int>)
    requires StackOk(h, hd, q) && Distinct(q) && q != []
    ensures 0 <= hd < |h| && hd == q[0] && h[hd].prev == NIL
    ensures StackOk(h[hd := h[hd].(next := NIL)], h[hd].next, Cut(q, 0))
  {
    assert Node(h, q, 0, false);
    var h', q' := h[hd := h[hd].(next := NIL)], Cut(q, 0);
    assert q' == q[1..];
    forall i | 0 <= i < |q'| ensures Node(h', q', i, false) {
      assert Node(h, q, i + 1, false);
    }
  }

  /** Linking t in behind place k (sched.c:253-254). */
  lemma StackInsertOk(h: seq<Link>, hd: int, q: seq<int>, t: int, k: int)
    requires StackOk(h, hd, q) && Distinct(q) && 0 <= t < |h| && t !in q && h[t].prev == NIL && 0 <= k < |q|
    ensures 0 <= q[k] < |h| && h[q[k]].next == At(q, k + 1)
    ensures StackOk(h[t := h[t].(next := h[q[k]].next)][q[k] := h[q[k]].(next := t)], hd, Insert(q, k + 1, t))
  {
    assert Node(h, q, k, false) && q[k] in q;
    var h' := h[t := h[t].(next := h[q[k]].next)][q[k] := h[q[k]].(next := t)];
    var q' := Insert(q, k + 1, t);
    forall i | 0 <= i < |q'| ensures Node(h', q', i, false) {
      if i <= k {
        assert Node(h, q, i, false) && q[i] in q;
      } else if i > k + 1 {
        assert Node(h, q, i - 1, false) && q[i - 1] in q;
      }
    }
  }

  // ---------------------------------------------------------------- all lists

  /** c' differs from c only in where list p begins and in the links of t and of the threads
      of list p. */
  ghost predicate Touches(c: Chains, c': Chains, q: seq<int>, p: Place, t: int) {
    && |c'.links| == |c.links| && |c'.queues| == |c.queues| && |c'.waiters| == |c.waiters|
    && (forall x | 0 <= x < |c.links| && x !in q && x != t :: c'.links[x] == c.links[x])
    && (forall l: nat {:trigger c'.queues[l]} | l < |c.queues| && p != Ready(l) :: c'.queues[l] == c.queues[l])
    && (p != Asleep ==> c'.sleepQ == c.sleepQ)
    && (forall m: nat {:trigger c'.waiters[m]} | m < |c.waiters| && p != Blocked(m) :: c'.waiters[m] == c.waiters[m])
  }

  lemma OtherLists(c: Chains, c': Chains, lists: map<Place, seq<int>>, place: seq<Place>, p: Place, q: seq<int>, t: int)
    requires Linked(c, lists, place) && p in lists && IsThread(t) && (place[t] == p || place[t] !in lists)
    requires Touches(c, c', lists[p], p, t) && ListOk(c', lists[p := q], p)
    ensures forall r {:trigger ListOk(c', lists[p := q], r)} | r in lists[p := q] :: ListOk(c', lists[p := q], r)
  {
    var lists' := lists[p := q];
    forall r | r in lists' ensures ListOk(c', lists', r) {
      if r != p {
        assert ListOk(c, lists, r) && Members(lists, place, r) && Members(lists, place, p);
        NodesKept(c.links, c'.links, lists[r], r.Ready?);
      }
    }
  }

  /** Thread t joins list p, which becomes q. */
  lemma Joined(c: Chains, c': Chains, lists: map<Place, seq<int>>, place: seq<Place>, p: Place, k: nat, t: int)
    requires Linked(c, lists, place) && p in lists && IsThread(t) && Outside(place[t]) && k <= |lists[p]|
    requires Touches(c, c', lists[p], p, t) && ListOk(c', lists[p := Insert(lists[p], k, t)], p)
    ensures Linked(c', lists[p := Insert(lists[p], k, t)], place[t := p])
  {
    var q := Insert(lists[p], k, t);
    InList(lists, place, |c.waiters|, p);
    InsertMembers(lists[p], k, t);
    Join(lists, place, |c.waiters|, p, q, t);
    assert !IsList(|c.waiters|, place[t]) && place[t] !in lists;
    OtherLists(c, c', lists, place, p, q, t);
    forall x | IsThread(x) ensures Clear(c', place[t := p], x) {
      assert Clear(c, place, x);
    }
  }

  /** Thread k of list p leaves it, with clear links. */
  lemma Left(c: Chains, c': Chains, lists: map<Place, seq<int>>, place: seq<Place>, p: Place, k: nat)
    requires Linked(c, lists, place) && p in lists && k < |lists[p]|
    requires Touches(c, c', lists[p], p, lists[p][k]) && ListOk(c', lists[p := Cut(lists[p], k)], p)
    requires 0 <= lists[p][k] < |c'.links| && c'.links[lists[p][k]] == CLEAR
    ensures IsThread(lists[p][k]) && Linked(c', lists[p := Cut(lists[p], k)], place[lists[p][k] := Limbo])
  {
    var q, t := Cut(lists[p], k), lists[p][k];
    InList(lists, place, |c.waiters|, p);
    CutMembers(lists[p], k);
    Leave(lists, place, |c.waiters|, p, q, t, Limbo);
    OtherLists(c, c', lists, place, p, q, t);
    forall x | IsThread(x) ensures Clear(c', place[t := Limbo], x) {
      assert Clear(c, place, x);
    }
  }

  /** A thread outside the lists may go to another place outside the lists. */
  lemma Shifted(c: Chains, lists: map<Place, seq<int>>, place: seq<Place>, t: int, to: Place)
    requires Linked(c, lists, place) && IsThread(t) && Outside(place[t]) && Outside(to)
    ensures Linked(c, lists, place[t := to])
  {
    Shift(lists, place, |c.waiters|, t, to);
    forall x | IsThread(x) ensures Clear(c, place[t := to], x) {
      assert Clear(c, place, x);
    }
  }

  // ---------------------------------------------------------------- one step on the whole

  /** Head and neighbours in a ready queue. */
  lemma QueueIs(c: Chains, lists: map<Place, seq<int>>, place: seq<Place>, l: nat)
    requires Linked(c, lists, place) && l < LEVELS
    ensures |c.queues| == LEVELS && |c.links| == MAX_THREADS && Ready(l) in lists
    ensures c.queues[l].head == At(lists[Ready(l)], 0) && c.queues[l].tail == At(lists[Ready(l)], |lists[Ready(l)]| - 1)
    ensures -1 <= c.queues[l].head < MAX_THREADS && -1 <= c.queues[l].tail < MAX_THREADS
    ensures forall k {:trigger lists[Ready(l)][k]} | 0 <= k < |lists[Ready(l)]| ::
              var t := lists[Ready(l)][k];
              && IsThread(t) && -1 <= c.links[t].next < MAX_THREADS && -1 <= c.links[t].prev < MAX_THREADS
              && c.links[t].prev != t
              && c.links[t].next == At(lists[Ready(l)], k + 1) && c.links[t].prev == At(lists[Ready(l)], k - 1)
  {
    InList(lists, place, |c.waiters|, Ready(l));
    assert ListOk(c, lists, Ready(l));
    var q := lists[Ready(l)];
    forall k | 0 <= k < |q|
      ensures var t := q[k];
        && IsThread(t) && -1 <= c.links[t].next < MAX_THREADS && -1 <= c.links[t].prev < MAX_THREADS
        && c.links[t].prev != t
        && c.links[t].next == At(q, k + 1) && c.links[t].prev == At(q, k - 1)
    {
      Around(c.links, c.queues[l], q, k);
    }
  }

  function PushedBack(c: Chains, l: nat, t: int): Chains
    requires l < |c.queues| && 0 <= t < |c.links| && -1 <= c.queues[l].tail < |c.links|
  {
    c.(links := PushBackT(c.links, c.queues[l], t), queues := c.queues[l := PushBackQ(c.queues[l], t)])
  }

  lemma PushBackLinked(c: Chains, lists: map<Place, seq<int>>, place: seq<Place>, l: nat, t: int)
    requires Linked(c, lists, place) && l < LEVELS && IsThread(t) && Outside(place[t])
    ensures |c.queues| == LEVELS && |c.links| == MAX_THREADS && -1 <= c.queues[l].tail < MAX_THREADS
        && Ready(l) in lists
    ensures Linked(PushedBack(c, l, t), lists[Ready(l) := Insert(lists[Ready(l)], |lists[Ready(l)]|, t)],
                   place[t := Ready(l)])
  {
    var q := lists[Ready(l)];
    InList(lists, place, |c.waiters|, Ready(l));
    assert ListOk(c, lists, Ready(l));
    PushBackOk(c.links, c.queues[l], q, t);
    hide QueueOk, PushBackT, Insert;
    Joined(c, PushedBack(c, l, t), lists, place, Ready(l), |q|, t);
  }

  function PushedFront(c: Chains, l: nat, t: int): Chains
    requires l < |c.queues| && 0 <= t < |c.links| && -1 <= c.queues[l].head < |c.links|
  {
    c.(links := PushFrontT(c.links, c.queues[l], t), queues := c.queues[l := PushFrontQ(c.queues[l], t)])
  }

  lemma PushFrontLinked(c: Chains, lists: map<Place, seq<int>>, place: seq<Place>, l: nat, t: int)
    requires Linked(c, lists, place) && l < LEVELS && IsThread(t) && Outside(place[t])
    ensures |c.queues| == LEVELS && |c.links| == MAX_THREADS && -1 <= c.queues[l].head < MAX_THREADS
        && Ready(l) in lists
    ensures Linked(PushedFront(c, l, t), lists[Ready(l) := Insert(lists[Ready(l)], 0, t)], place[t := Ready(l)])
  {
    var q := lists[Ready(l)];
    InList(lists, place, |c.waiters|, Ready(l));
    assert ListOk(c, lists, Ready(l));
    PushFrontOk(c.links, c.queues[l], q, t);
    hide QueueOk, PushFrontT, Insert;
    Joined(c, PushedFront(c, l, t), lists, place, Ready(l), 0, t);
  }

  function Removed(c: Chains, l: nat, t: int): Chains
    requires l < |c.queues| && 0 <= t < |c.links| && -1 <= c.links[t].prev < |c.links|
        && -1 <= c.links[t].next < |c.links|
    requires c.links[t].prev != t
  {
    c.(links := RemoveT(c.links, t), queues := c.queues[l := RemoveQ(c.links, c.queues[l], t)])
  }

  lemma RemoveLinked(c: Chains, lists: map<Place, seq<int>>, place: seq<Place>, l: nat, k: nat)
    requires Linked(c, lists, place) && l < LEVELS && Ready(l) in lists && k < |lists[Ready(l)]|
    ensures |c.queues| == LEVELS && |c.links| == |place| == MAX_THREADS
    ensures var t := lists[Ready(l)][k];
      && IsThread(t) && -1 <= c.links[t].prev < MAX_THREADS && -1 <= c.links[t].next < MAX_THREADS
      && c.links[t].prev != t
      && Linked(Removed(c, l, t), lists[Ready(l) := Cut(lists[Ready(l)], k)], place[t := Limbo])
  {
    var q := lists[Ready(l)];
    InList(lists, place, |c.waiters|, Ready(l));
    assert ListOk(c, lists, Ready(l));
    RemoveOk(c.links, c.queues[l], q, k);
    hide QueueOk, RemoveT, RemoveQ, Cut;
    Left(c, Removed(c, l, q[k]), lists, place, Ready(l), k);
  }

  /** The sleep list is what its links spell out. */
  lemma SleepListIs(c: Chains, lists: map<Place, seq<int>>, place: seq<Place>)
    requires Linked(c, lists, place)
    ensures |c.links| == MAX_THREADS && |place| == MAX_THREADS && Asleep in lists && c.sleepQ == At(lists[Asleep], 0)
    ensures forall k {:trigger lists[Asleep][k]} | 0 <= k < |lists[Asleep]| ::
              IsThread(lists[Asleep][k]) && place[lists[Asleep][k]] == Asleep
                && c.links[lists[Asleep][k]].next == At(lists[Asleep], k + 1)
  {
    InList(lists, place, |c.waiters|, Asleep);
    assert ListOk(c, lists, Asleep);
    forall k | 0 <= k < |lists[Asleep]| ensures c.links[lists[Asleep][k]].next == At(lists[Asleep], k + 1) {
      assert Node(c.links, lists[Asleep], k, false);
    }
  }

  /** t put into the sleep list behind thread b, or in front when b is NIL. */
  function Slept(c: Chains, b: int, t: int): Chains
    requires 0 <= t < |c.links| && -1 <= b < |c.links|
  {
    var h := c.links;
    if b == NIL then c.(links := h[t := h[t].(next := c.sleepQ)], sleepQ := t)
    else c.(links := h[t := h[t].(next := h[b].next)][b := h[b].(next := t)])
  }

  lemma SleptLinked(c: Chains, lists: map<Place, seq<int>>, place: seq<Place>, k: nat, t: int)
    requires Linked(c, lists, place) && IsThread(t) && Outside(place[t]) && Asleep in lists && k <= |lists[Asleep]|
    ensures |c.links| == MAX_THREADS && -1 <= At(lists[Asleep], k - 1) < MAX_THREADS
    ensures Linked(Slept(c, At(lists[Asleep], k - 1), t), lists[Asleep := Insert(lists[Asleep], k, t)],
                   place[t := Asleep])
  {
    var q, b := lists[Asleep], At(lists[Asleep], k - 1);
    SleepListIs(c, lists, place);
    InList(lists, place, |c.waiters|, Asleep);
    assert ListOk(c, lists, Asleep) && Clear(c, place, t);
    if k == 0 {
      StackPushOk(c.links, c.sleepQ, q, t);
    } else {
      StackInsertOk(c.links, c.sleepQ, q, t, k - 1);
      assert q[k - 1] in q;
    }
    Joined(c, Slept(c, b, t), lists, place, Asleep, k, t);
  }

  /** The first sleeper taken off. */
  function WokenFirst(c: Chains): Chains
    requires 0 <= c.sleepQ < |c.links|
  {
    c.(links := c.links[c.sleepQ := c.links[c.sleepQ].(next := NIL)], sleepQ := c.links[c.sleepQ].next)
  }

  lemma WokenLinked(c: Chains, lists: map<Place, seq<int>>, place: seq<Place>)
    requires Linked(c, lists, place) && Asleep in lists && lists[Asleep] != []
    ensures |c.links| == |place| == MAX_THREADS && IsThread(c.sleepQ) && c.sleepQ == lists[Asleep][0]
    ensures Linked(WokenFirst(c), lists[Asleep := Cut(lists[Asleep], 0)], place[c.sleepQ := Limbo])
  {
    SleepListIs(c, lists, place);
    InList(lists, place, |c.waiters|, Asleep);
    assert ListOk(c, lists, Asleep);
    StackPopOk(c.links, c.sleepQ, lists[Asleep]);
    Left(c, WokenFirst(c), lists, place, Asleep, 0);
  }

  /** t in front of the wait list of mutex m. */
  function WaitsFor(c: Chains, m: nat, t: int): Chains
    requires 0 <= t < |c.links| && m < |c.waiters|
  {
    c.(links := c.links[t := c.links[t].(next := c.waiters[m])], waiters := c.waiters[m := t])
  }

  lemma WaitsLinked(c: Chains, lists: map<Place, seq<int>>, place: seq<Place>, m: nat, t: int)
    requires Linked(c, lists, place) && IsThread(t) && Outside(place[t]) && m < |c.waiters|
    ensures |c.links| == MAX_THREADS && Blocked(m) in lists
    ensures Linked(WaitsFor(c, m, t), lists[Blocked(m) := Insert(lists[Blocked(m)], 0, t)], place[t := Blocked(m)])
  {
    InList(lists, place, |c.waiters|, Blocked(m));
    assert ListOk(c, lists, Blocked(m)) && Clear(c, place, t);
    StackPushOk(c.links, c.waiters[m], lists[Blocked(m)], t);
    Joined(c, WaitsFor(c, m, t), lists, place, Blocked(m), 0, t);
  }

  /** The first waiter of mutex m taken off. */
  function HandedFirst(c: Chains, m: nat): Chains
    requires m < |c.waiters| && 0 <= c.waiters[m] < |c.links|
  {
    var t := c.waiters[m];
    c.(links := c.links[t := c.links[t].(next := NIL)], waiters := c.waiters[m := c.links[t].next])
  }

  lemma WaitListIs(c: Chains, lists: map<Place, seq<int>>, place: seq<Place>, m: nat)
    requires Linked(c, lists, place) && m < |c.waiters|
    ensures |c.links| == |place| == MAX_THREADS && Blocked(m) in lists && c.waiters[m] == At(lists[Blocked(m)], 0)
    ensures lists[Blocked(m)] != [] ==> IsThread(c.waiters[m]) && place[c.waiters[m]] == Blocked(m)
  {
    InList(lists, place, |c.waiters|, Blocked(m));
    assert ListOk(c, lists, Blocked(m));
  }

  lemma HandedLinked(c: Chains, lists: map<Place, seq<int>>, place: seq<Place>, m: nat)
    requires Linked(c, lists, place) && m < |c.waiters| && Blocked(m) in lists && lists[Blocked(m)] != []
    ensures |c.links| == |place| == MAX_THREADS && IsThread(c.waiters[m]) && c.waiters[m] == lists[Blocked(m)][0]
    ensures Linked(HandedFirst(c, m), lists[Blocked(m) := Cut(lists[Blocked(m)], 0)], place[c.waiters[m] := Limbo])
  {
    WaitListIs(c, lists, place, m);
    InList(lists, place, |c.waiters|, Blocked(m));
    assert ListOk(c, lists, Blocked(m));
    StackPopOk(c.links, c.waiters[m], lists[Blocked(m)]);
    Left(c, HandedFirst(c, m), lists, place, Blocked(m), 0);
  }
}

/** The list of free frames, threaded through the frame database
    (kernel/mm/vmm.h:86-101, kernel/mm/vmm.c:140-170). */
module Frames {
  import opened Basics

  const NONE := 0xFFFF_FFFF

  datatype PfnState = Free | Kernel | User | Mmio | Firmware | PageTable | Bad

  datatype PfnEntry = PfnEntry(nextFree: nat, state: PfnState, refCount: nat)

  ghost predicate NextAt(db: seq<PfnEntry>, fl: seq<nat>, i: nat)
    requires i < |fl|
  {
    fl[i] < |db| && db[fl[i]].nextFree == if i + 1 < |fl| then fl[i + 1] else NONE
  }

  /** Following nextFree from head gives fl, which holds the frames in state Free, once
      each. */
  ghost predicate FreeList(db: seq<PfnEntry>, head: nat, count: nat, fl: seq<nat>) {
    && |db| <= NONE && count == |fl| && head == (if fl == [] then NONE else fl[0])
    && (forall i {:trigger NextAt(db, fl, i)} | 0 <= i < |fl| :: NextAt(db, fl, i))
    && (forall f: nat :: f in fl <==> f < |db| && db[f].state == Free)
    && Distinct(fl) && 0 !in fl
  }

  /** The frames met when following nextFree from f, at most fuel of them. */
  function Chase(db: seq<PfnEntry>, f: nat, fuel: nat): seq<nat>
    decreases fuel
  {
    if fuel == 0 || f >= |db| then [] else [f] + Chase(db, db[f].nextFree, fuel - 1)
  }

  /** Walking the list visits exactly the free frames, once each, and then stops. */
  lemma ChaseVisitsFree(db: seq<PfnEntry>, head: nat, count: nat, fl: seq<nat>, fuel: nat)
    requires FreeList(db, head, count, fl) && fuel >= count
    ensures Chase(db, head, fuel) == fl
    ensures forall f: nat :: f in Chase(db, head, fuel) <==> f < |db| && db[f].state == Free
  {
    ChaseFrom(db, head, count, fl, 0, fuel);
    assert fl[0..] == fl;
  }

  lemma {:induction false} ChaseFrom(db: seq<PfnEntry>, head: nat, count: nat, fl: seq<nat>, i: nat, fuel: nat)
    requires FreeList(db, head, count, fl) && i <= |fl| && fuel >= |fl| - i
    ensures Chase(db, if i < |fl| then fl[i] else NONE, fuel) == fl[i..]
    decreases |fl| - i
  {
    if i < |fl| {
      assert NextAt(db, fl, i);
      ChaseFrom(db, head, count, fl, i + 1, fuel - 1);
      assert fl[i..] == [fl[i]] + fl[i + 1..];
    }
  }

  lemma PopFree(db: seq<PfnEntry>, head: nat, count: nat, fl: seq<nat>)
    requires FreeList(db, head, count, fl) && fl != []
    ensures 0 < head < |db| && head == fl[0] && count > 0 && head !in fl[1..]
    ensures FreeList(db[head := PfnEntry(NONE, Kernel, 1)], db[head].nextFree, count - 1, fl[1..])
  {
    var db' := db[head := PfnEntry(NONE, Kernel, 1)];
    var fl' := fl[1..];
    assert head in fl && NextAt(db, fl, 0);
    forall i | 0 <= i < |fl'| ensures NextAt(db', fl', i) {
      assert NextAt(db, fl, i + 1);
    }
    forall f: nat ensures f in fl' <==> f < |db'| && db'[f].state == Free {
      assert fl == [head] + fl';
      assert f in fl <==> f == head || f in fl';
    }
  }

  lemma PushFree(db: seq<PfnEntry>, head: nat, count: nat, fl: seq<nat>, f: nat)
    requires FreeList(db, head, count, fl) && 0 < f < |db| && db[f].state != Free
    ensures FreeList(db[f := PfnEntry(head, Free, 0)], f, count + 1, [f] + fl)
  {
    var db' := db[f := PfnEntry(head, Free, 0)];
    var fl' := [f] + fl;
    assert f !in fl;
    forall i | 0 <= i < |fl'| ensures NextAt(db', fl', i) {
      if i > 0 {
        assert NextAt(db, fl, i - 1);
      }
    }
    assert forall g: nat :: g in fl' <==> g == f || g in fl;
  }

  lemma PushedTwice(fl: seq<nat>, f: nat)
    requires f in fl
    ensures !Distinct([f] + fl)
  {
    var i :| 0 <= i < |fl| && fl[i] == f;
    assert ([f] + fl)[0] == ([f] + fl)[i + 1];
  }

  ghost function Elements(q: seq<nat>): set<nat> {
    set x | x in q
  }

  lemma {:induction false} DistinctSize(q: seq<nat>)
    requires Distinct(q)
    ensures |Elements(q)| == |q|
  {
    if q != [] {
      var rest := q[1..];
      assert Distinct(rest) && q[0] !in rest;
      DistinctSize(rest);
      assert q == [q[0]] + rest;
      hide Distinct;
      assert Elements(q) == Elements(rest) + {q[0]};
    }
  }

  /** Two lists of the same numbers, each once, are of the same length. */
  lemma SameLength(p: seq<nat>, q: seq<nat>)
    requires Distinct(p) && Distinct(q) && forall x :: x in p <==> x in q
    ensures |p| == |q|
  {
    DistinctSize(p);
    DistinctSize(q);
    assert Elements(p) == Elements(q);
  }

  /** Pushing a frame that is free already leaves no list of the free frames at all: the
      counter is one too high for it. */
  lemma DoubleFree(db: seq<PfnEntry>, head: nat, count: nat, fl: seq<nat>, f: nat, fl': seq<nat>)
    requires FreeList(db, head, count, fl) && 0 < f < |db| && db[f].state == Free
    ensures !FreeList(db[f := PfnEntry(head, Free, 0)], f, count + 1, fl')
  {
    if FreeList(db[f := PfnEntry(head, Free, 0)], f, count + 1, fl') {
      SameLength(fl, fl');
    }
  }

  /** The list looks at the reference count of no frame. */
  lemma SharedEntry(db: seq<PfnEntry>, head: nat, count: nat, fl: seq<nat>, f: nat, e: PfnEntry)
    requires FreeList(db, head, count, fl) && f < |db| && e.state == db[f].state && e.nextFree == db[f].nextFree
    ensures FreeList(db[f := e], head, count, fl)
  {
    var db' := db[f := e];
    forall i | 0 <= i < |fl| ensures NextAt(db', fl, i) {
      assert NextAt(db, fl, i);
    }
  }
}

/** What pfn_database_init makes of the firmware's memory map (kernel/mm/vmm.c:29-134). */
module MemoryMap {
  import opened Basics
  import opened Frames
  import opened Paging


  datatype Descriptor = Descriptor(kind: nat, start: nat, pages: nat)

  predicate IsConventional(kind: nat) {
    kind == 3 || kind == 4 || kind == 7
  }

  predicate IsFirmware(kind: nat) {
    kind == 5 || kind == 6 || kind == 9 || kind == 10 || kind == 11 || kind == 12
  }

  function StateOfKind(kind: nat): PfnState {
    if IsFirmware(kind) then Firmware else if IsConventional(kind) then Free else Bad
  }

  /** End address of a region, in 64 bits. */
  function EndOf(d: Descriptor): nat {
    (d.start + d.pages * PAGE) % WRAP_64
  }

  function MaxPhys(ds: seq<Descriptor>): nat {
    if ds == [] then 0 else
      var m := MaxPhys(ds[..|ds| - 1]);
      if EndOf(ds[|ds| - 1]) > m then EndOf(ds[|ds| - 1]) else m
  }

  /** Number of frames the database describes. */
  function FrameCount(ds: seq<Descriptor>): nat {
    MaxPhys(ds) / PAGE
  }

  /** Pages the database itself takes, at 8 bytes an entry. */
  function DbPages(ds: seq<Descriptor>): nat {
    (FrameCount(ds) * 8 + PAGE - 1) / PAGE
  }

  predicate CanHoldDb(ds: seq<Descriptor>, d: Descriptor) {
    IsConventional(d.kind) && d.pages >= DbPages(ds) + 1 && d.start >= 0x10_0000
  }

  /** Where the database is put: the first region that can hold it, or 0. */
  function DbBase(ds: seq<Descriptor>, from: nat): (b: nat)
    requires from <= |ds|
    decreases |ds| - from
  {
    if from == |ds| then 0 else if CanHoldDb(ds, ds[from]) then ds[from].start else DbBase(ds, from + 1)
  }

  /** First frame and the frame after the last one of a region, in 32 bits. */
  function FirstFrame(d: Descriptor): nat {
    d.start / PAGE % WRAP_32
  }

  function LastFrame(d: Descriptor, count: nat): nat {
    var e := (FirstFrame(d) + d.pages) % WRAP_32;
    if e > count then count else e
  }

  predicate CoversFrame(d: Descriptor, count: nat, f: nat) {
    FirstFrame(d) <= f < LastFrame(d, count)
  }

  /** The state the last region covering frame f gives it. */
  function MapState(ds: seq<Descriptor>, n: nat, count: nat, f: nat): PfnState
    requires n <= |ds|
  {
    if n == 0 then Bad
    else if CoversFrame(ds[n - 1], count, f) then StateOfKind(ds[n - 1].kind)
    else MapState(ds, n - 1, count, f)
  }

  /** Frames of the kernel image. */
  predicate InKernel(base: nat, size: nat, f: nat) {
    base / PAGE % WRAP_32 <= f < (base / PAGE % WRAP_32 + (size + PAGE - 1) % WRAP_64 / PAGE % WRAP_32) % WRAP_32
  }

  predicate InDb(ds: seq<Descriptor>, f: nat) {
    DbBase(ds, 0) / PAGE % WRAP_32 <= f < DbBase(ds, 0) / PAGE % WRAP_32 + DbPages(ds)
  }

  /** The state frame f has after initialisation. */
  function InitialState(ds: seq<Descriptor>, base: nat, size: nat, f: nat): PfnState {
    if InDb(ds, f) || InKernel(base, size, f) then Kernel
    else if f < 256 then Firmware
    else MapState(ds, |ds|, FrameCount(ds), f)
  }

  /** MaxPhys is the highest end of a region. */
  lemma {:induction false} MaxPhysIs(ds: seq<Descriptor>)
    ensures forall i | 0 <= i < |ds| :: EndOf(ds[i]) <= MaxPhys(ds)
    ensures MaxPhys(ds) == 0 || exists i :: 0 <= i < |ds| && EndOf(ds[i]) == MaxPhys(ds)
  {
    if ds != [] {
      var before := ds[..|ds| - 1];
      MaxPhysIs(before);
      forall i | 0 <= i < |ds| ensures EndOf(ds[i]) <= MaxPhys(ds) {
        assert i < |before| ==> before[i] == ds[i];
      }
      if MaxPhys(ds) != 0 && MaxPhys(ds) == MaxPhys(before) {
        var i :| 0 <= i < |before| && EndOf(before[i]) == MaxPhys(before);
        assert ds[i] == before[i];
      } else {
        assert EndOf(ds[|ds| - 1]) == MaxPhys(ds) || MaxPhys(ds) == 0;
      }
    }
  }

  /** DbBase is the start of the first region, from one on, that can hold the database, or 0
      when there is none. */
  lemma {:induction false} DbBaseIs(ds: seq<Descriptor>, from: nat)
    requires from <= |ds|
    ensures DbBase(ds, from) == 0 <==> forall i | from <= i < |ds| :: !CanHoldDb(ds, ds[i])
    ensures DbBase(ds, from) != 0 ==>
              exists i :: from <= i < |ds| && CanHoldDb(ds, ds[i]) && ds[i].start == DbBase(ds, from)
                          && forall j | from <= j < i :: !CanHoldDb(ds, ds[j])
    decreases |ds| - from
  {
    if from < |ds| && !CanHoldDb(ds, ds[from]) {
      DbBaseIs(ds, from + 1);
      if DbBase(ds, from + 1) != 0 {
        var i :| from + 1 <= i < |ds| && CanHoldDb(ds, ds[i]) && ds[i].start == DbBase(ds, from + 1)
                 && forall j | from + 1 <= j < i :: !CanHoldDb(ds, ds[j]);
        assert forall j | from <= j < i :: !CanHoldDb(ds, ds[j]);
      }
    } else if from < |ds| {
      assert CanHoldDb(ds, ds[from]) && ds[from].start == DbBase(ds, from);
    }
  }

  /** Byte a of a region lies in one of its first frames, as many as its size rounded up takes.
      In a page-aligned region every byte does. */
  predicate InFirstFrames(base: nat, size: nat, a: nat) {
    base <= a < base + size && a / PAGE < base / PAGE + (size + PAGE - 1) / PAGE
  }

  lemma AlignedInFirst(base: nat, size: nat, a: nat)
    requires base % PAGE == 0 && base <= a < base + size
    ensures InFirstFrames(base, size, a)
  {
  }

  /** A byte below 1 MB, of the kernel image, or of the frame database. */
  predicate IsReserved(ds: seq<Descriptor>, base: nat, size: nat, a: nat) {
    a < 0x10_0000 || InFirstFrames(base, size, a) || InFirstFrames(DbBase(ds, 0), FrameCount(ds) * 8, a)
  }

  /** No such byte lies in a frame that is free at first. */
  lemma ReservedNotFree(ds: seq<Descriptor>, base: nat, size: nat, a: nat)
    requires base + size < 0x1000_0000_0000 - PAGE && DbBase(ds, 0) + DbPages(ds) * PAGE < 0x1000_0000_0000
    requires IsReserved(ds, base, size, a)
    ensures InitialState(ds, base, size, a / PAGE) != Free
  {
    hide MaxPhys, DbBase, MapState;
    if InFirstFrames(base, size, a) {
      KernelMarkedIff(base, size, a);
    } else if a >= 0x10_0000 {
      DbMarked(ds, a);
    }
  }

  /** A byte of the kernel image has its frame marked exactly if it is in the first frames: the
      page count ignores where in its first page the image starts. */
  lemma KernelMarkedIff(base: nat, size: nat, a: nat)
    requires base <= a < base + size < 0x1000_0000_0000 - PAGE
    ensures InKernel(base, size, a / PAGE) <==> InFirstFrames(base, size, a)
  {
    var pages := (size + PAGE - 1) / PAGE;
    assert base / PAGE + pages < WRAP_32;
    assert base / PAGE % WRAP_32 == base / PAGE;
    assert (size + PAGE - 1) % WRAP_64 / PAGE % WRAP_32 == pages;
  }

  lemma DbMarked(ds: seq<Descriptor>, a: nat)
    requires DbBase(ds, 0) + DbPages(ds) * PAGE < 0x1000_0000_0000
    requires InFirstFrames(DbBase(ds, 0), FrameCount(ds) * 8, a)
    ensures InDb(ds, a / PAGE)
  {
    hide DbBase, MaxPhys;
    assert DbBase(ds, 0) / PAGE < WRAP_32;
  }

  /** A frame is free at first only if the last region that covers it is conventional. */
  lemma {:induction false} FreeIsConventional(ds: seq<Descriptor>, n: nat, count: nat, f: nat)
    requires n <= |ds| && MapState(ds, n, count, f) == Free
    ensures exists i :: 0 <= i < n && IsConventional(ds[i].kind) && CoversFrame(ds[i], count, f)
                     && forall j | i < j < n :: !CoversFrame(ds[j], count, f)
  {
    if !CoversFrame(ds[n - 1], count, f) {
      FreeIsConventional(ds, n - 1, count, f);
      var i :| 0 <= i < n - 1 && IsConventional(ds[i].kind) && CoversFrame(ds[i], count, f)
               && forall j | i < j < n - 1 :: !CoversFrame(ds[j], count, f);
    }
  }

  /** The free frames below n, highest first: the order in which they are pushed. */
  function FreeBelow(db: seq<PfnEntry>, n: nat): (fl: seq<nat>)
    requires n <= |db|
    ensures forall f :: f in fl <==> 0 < f < n && db[f].state == Free
    ensures Distinct(fl)
  {
    if n <= 1 then []
    else if db[n - 1].state == Free then [n - 1] + FreeBelow(db, n - 1)
    else FreeBelow(db, n - 1)
  }

  /** The list as far as it is built, for the frames below n. */
  ghost predicate ListBelow(db: seq<PfnEntry>, head: nat, count: nat, n: nat)
    requires n <= |db|
  {
    var fl := FreeBelow(db, n);
    && count == |fl| && head == (if fl == [] then NONE else fl[0])
    && (forall i {:trigger NextAt(db, fl, i)} | 0 <= i < |fl| :: NextAt(db, fl, i))
  }

  lemma {:induction false} FreeBelowStates(db: seq<PfnEntry>, db': seq<PfnEntry>, n: nat)
    requires n <= |db| == |db'| && forall f | 0 <= f < |db| :: db'[f].state == db[f].state
    ensures FreeBelow(db', n) == FreeBelow(db, n)
  {
    if n > 1 {
      FreeBelowStates(db, db', n - 1);
    }
  }

  lemma NothingBelow(db: seq<PfnEntry>)
    ensures ListBelow(db, NONE, 0, 0) && (|db| > 0 ==> ListBelow(db, NONE, 0, 1))
  {
  }

  lemma PushBelow(db: seq<PfnEntry>, head: nat, count: nat, p: nat)
    requires 0 < p < |db| && ListBelow(db, head, count, p)
    ensures db[p].state == Free ==> ListBelow(db[p := db[p].(nextFree := head)], p, count + 1, p + 1)
    ensures db[p].state != Free ==> ListBelow(db, head, count, p + 1)
  {
    if db[p].state == Free {
      var db' := db[p := db[p].(nextFree := head)];
      FreeBelowStates(db, db', p);
      var fl := FreeBelow(db, p);
      var fl' := FreeBelow(db', p + 1);
      assert fl' == [p] + fl;
      forall i | 0 <= i < |fl'| ensures NextAt(db', fl', i) {
        if i > 0 {
          assert NextAt(db, fl, i - 1) && fl[i - 1] in fl;
        }
      }
    }
  }
}

/** What the memory manager keeps true of tables, pool pages and free frames together. */
module Spaces {
  import opened Basics
  import opened Paging
  import opened Frames

  const POOL_BASE := 0xFFFF_FF80_0000_0000

  /** PDPT slot 510 of the same 512 GB holds the kernel image, mapped with 2 MB pages. */
  const POOL_LIMIT := POOL_BASE + 510 * 0x4000_0000

  /** Entry i of f if f is a last-level table. */
  function LeafAt(mem: Memory, owner: map<nat, Path>, f: nat, i: nat): Pte {
    if f in owner && owner[f].Pt? && i < ENTRIES then Get(mem, f, i) else ZERO
  }

  /** page tells for each frame mapped by a 4 KB entry the only slot that maps it. Such
      frames are allocated once, and none is a table. */
  ghost predicate Pages(mem: Memory, owner: map<nat, Path>, page: map<nat, (nat, nat)>, db: seq<PfnEntry>) {
    && (forall f, i: nat {:trigger LeafAt(mem, owner, f, i)} :: LeafAt(mem, owner, f, i).flags.present ==>
          MapsTo(page, LeafAt(mem, owner, f, i).frame, f, i))
    && (forall g | g in page :: var e := LeafAt(mem, owner, page[g].0, page[g].1); e.flags.present && e.frame == g)
    && (forall g | g in page :: g !in owner && Owned(db, g))
  }

  ghost predicate MapsTo(page: map<nat, (nat, nat)>, g: nat, f: nat, i: nat) {
    g in page && page[g] == (f, i)
  }

  /** Frame g is allocated, to one holder. */
  predicate Owned(db: seq<PfnEntry>, g: nat) {
    0 < g < |db| && db[g].state == Kernel && db[g].refCount == 1
  }

  predicate PoolPd(p: Path) {
    p.Pd? && p.i4 == 511 && p.i3 < 510
  }

  /** No 2 MB page in the pool region. */
  ghost predicate PoolFlat(mem: Memory, owner: map<nat, Path>) {
    forall f, i: nat {:trigger Get(mem, f, i)} | f in owner && PoolPd(owner[f]) :: !Get(mem, f, i).flags.huge
  }

  /** No frame is a table and free, or a table and reserved, or reserved and free. */
  ghost predicate Apart(owner: map<nat, Path>, page: map<nat, (nat, nat)>, reserved: set<nat>, db: seq<PfnEntry>) {
    && (forall f | f in owner :: !(f < |db| && db[f].state == Free))
    && (forall f | f in reserved :: !(f < |db| && db[f].state == Free) && f !in owner && f !in page)
  }

  /** From one state to a later one only tables were added: frames left the free list to
      become tables, live data and last-level entries are as before, and so is every
      translation. */
  ghost predicate Grew(root: nat, mem: Memory, owner: map<nat, Path>, fl: seq<nat>,
                       mem': Memory, owner': map<nat, Path>, fl': seq<nat>)
  {
    && |mem'| == |mem|
    && (forall f | f in owner :: f in owner' && owner'[f] == owner[f])
    && (forall f :: f in fl <==> f in fl' || (f in owner' && f !in owner))
    && (forall f | f in owner' && f !in owner :: f !in fl')
    && (forall f | 0 <= f < |mem| && f !in owner && f !in fl :: mem'[f] == mem[f])
    && (forall f, i: nat {:trigger LeafAt(mem', owner', f, i)} ::
        LeafAt(mem', owner', f, i) == LeafAt(mem, owner, f, i))
    && (forall va: nat {:trigger Translate(mem', root, va)} :: Translate(mem', root, va) == Translate(mem, root, va))
  }

  lemma GrewRefl(root: nat, mem: Memory, owner: map<nat, Path>, fl: seq<nat>)
    ensures Grew(root, mem, owner, fl, mem, owner, fl)
  {
  }

  lemma GrewTrans(root: nat, m1: Memory, o1: map<nat, Path>, f1: seq<nat>, m2: Memory, o2: map<nat, Path>, f2: seq<nat>,
                  m3: Memory, o3: map<nat, Path>, f3: seq<nat>)
    requires Grew(root, m1, o1, f1, m2, o2, f2) && Grew(root, m2, o2, f2, m3, o3, f3)
    ensures Grew(root, m1, o1, f1, m3, o3, f3)
  {
    forall f, i: nat ensures LeafAt(m3, o3, f, i) == LeafAt(m1, o1, f, i) {
      assert LeafAt(m2, o2, f, i) == LeafAt(m1, o1, f, i);
    }
    forall va: nat ensures Translate(m3, root, va) == Translate(m1, root, va) {
      assert Translate(m2, root, va) == Translate(m1, root, va);
    }
  }

  /** Hanging a freshly zeroed free frame into an empty slot is such a step. */
  lemma LinkGrew(mem: Memory, root: nat, owner: map<nat, Path>, fl: seq<nat>, t: nat, i: nat, e: Pte)
    requires Tree(mem, root, owner) && t in owner && !owner[t].Pt? && i < ENTRIES && !Get(mem, t, i).flags.present
    requires fl != [] && fl[0] < |mem| && fl[0] !in fl[1..] && (forall f | f in owner :: f !in fl)
    requires e.frame == fl[0] && e.flags.present && !e.flags.huge
    ensures Tree(Linked(mem, t, i, fl[0], e), root, owner[fl[0] := Sub(owner[t], i)])
    ensures Grew(root, mem, owner, fl, Linked(mem, t, i, fl[0], e), owner[fl[0] := Sub(owner[t], i)], fl[1..])
  {
    var n := fl[0];
    var mem' := Linked(mem, t, i, n, e);
    var owner' := owner[n := Sub(owner[t], i)];
    assert n in fl && fl == [n] + fl[1..];
    LinkTree(mem, root, owner, t, i, n, e);
    forall f, j: nat ensures LeafAt(mem', owner', f, j) == LeafAt(mem, owner, f, j) {
      GetLinked(mem, t, i, n, e, f, j);
    }
    forall va: nat ensures Translate(mem', root, va) == Translate(mem, root, va) {
      LinkTranslates(mem, root, owner, t, i, n, e, va);
    }
    assert forall f :: f in fl <==> f == n || f in fl[1..];
  }

  /** It also keeps 2 MB pages out of the pool region. */
  lemma LinkFlat(mem: Memory, root: nat, owner: map<nat, Path>, t: nat, i: nat, n: nat, e: Pte)
    requires Tree(mem, root, owner) && PoolFlat(mem, owner) && t in owner && !owner[t].Pt? && i < ENTRIES
    requires n < |mem| && n !in owner && !e.flags.huge
    ensures PoolFlat(Linked(mem, t, i, n, e), owner[n := Sub(owner[t], i)])
  {
    var mem' := Linked(mem, t, i, n, e);
    forall f, j: nat | f in owner[n := Sub(owner[t], i)] && PoolPd(owner[n := Sub(owner[t], i)][f])
      ensures !Get(mem', f, j).flags.huge
    {
      GetLinked(mem, t, i, n, e, f, j);
    }
  }

  /** Frames that are not free keep their entries. */
  ghost predicate SameOwned(db: seq<PfnEntry>, db': seq<PfnEntry>) {
    |db'| == |db| && forall g | 0 <= g < |db| && db[g].state != Free :: db'[g] == db[g]
  }

  lemma SameOwnedRefl(db: seq<PfnEntry>)
    ensures SameOwned(db, db)
  {
  }

  lemma ListedIsFree(db: seq<PfnEntry>, head: nat, count: nat, fl: seq<nat>)
    requires FreeList(db, head, count, fl)
    ensures forall f | f in fl :: f < |db| && db[f].state == Free
    ensures fl != [] ==> fl[0] in fl && fl[0] !in fl[1..]
  {
  }

  /** Slot i of table t leads to child, which was there or is new and empty; nothing else
      changed in the old tables. */
  ghost predicate Step(mem: Memory, owner: map<nat, Path>, mem': Memory, owner': map<nat, Path>, t: nat, i: nat,
                       child: nat)
  {
    && Get(mem', t, i).flags.present && Get(mem', t, i).frame == child
    && t in owner && t in owner' && owner'[t] == owner[t]
    && (if Get(mem, t, i).flags.present then mem' == mem && owner' == owner
        else (forall j: nat :: Get(mem', child, j) == ZERO)
             && !Get(mem', t, i).flags.huge
             && (forall g, j: nat {:trigger Get(mem', g, j)} | g in owner && !(g == t && j == i) ::
                 Get(mem', g, j) == Get(mem, g, j)))
  }

  /** A slot of a table is in memory, and what stands there leads to a table. */
  lemma SlotThere(mem: Memory, root: nat, owner: map<nat, Path>, t: nat, i: nat)
    requires Tree(mem, root, owner) && t in owner && !owner[t].Pt? && i < ENTRIES
    ensures WellSized(mem) && t < |mem| && i < |mem[t]|
    ensures var e := Get(mem, t, i);
      e.flags.present && !(owner[t].Pd? && e.flags.huge) ==>
        PointsTo(owner, e.frame, Sub(owner[t], i)) && Step(mem, owner, mem, owner, t, i, e.frame)
  {
  }

  /** After three such steps from the root the walk for va ends in the last child. */
  lemma StepsReach(root: nat, va: nat, m0: Memory, o0: map<nat, Path>, m1: Memory, o1: map<nat, Path>, pdpt: nat,
                   m2: Memory, o2: map<nat, Path>, pd: nat, m3: Memory, o3: map<nat, Path>, pt: nat)
    requires Step(m0, o0, m1, o1, root, I4(va), pdpt) && Step(m1, o1, m2, o2, pdpt, I3(va), pd)
    requires Step(m2, o2, m3, o3, pd, I2(va), pt)
    requires PointsTo(o0, root, Pml4) && PointsTo(o1, pdpt, Pdpt(I4(va))) && PointsTo(o2, pd, Pd(I4(va), I3(va)))
    requires NoHuge(m0, root, va) && (forall f | f in o0 :: f in o1)
        && (forall f | f in o1 :: f in o2 && o2[f] == o1[f])
    ensures PtOf(m3, root, va) == Some(pt)
  {
    var e4, e3, e2 := Get(m3, root, I4(va)), Get(m3, pdpt, I3(va)), Get(m3, pd, I2(va));
    StepsNoHuge(root, va, m0, o0, m1, o1, pdpt, m2, o2, pd);
    assert Get(m2, root, I4(va)) == Get(m1, root, I4(va));
  }

  lemma StepsNoHuge(root: nat, va: nat, m0: Memory, o0: map<nat, Path>, m1: Memory, o1: map<nat, Path>, pdpt: nat,
                    m2: Memory, o2: map<nat, Path>, pd: nat)
    requires Step(m0, o0, m1, o1, root, I4(va), pdpt) && Step(m1, o1, m2, o2, pdpt, I3(va), pd) && NoHuge(m0, root, va)
    ensures !(Get(m2, pd, I2(va)).flags.present && Get(m2, pd, I2(va)).flags.huge)
  {
  }

  /** What one new table does to the whole state. */
  lemma LinkStep(mem: Memory, root: nat, owner: map<nat, Path>, page: map<nat, (nat, nat)>, reserved: set<nat>,
                 db: seq<PfnEntry>, fl: seq<nat>, t: nat, i: nat, flags: Flags)
    requires Tree(mem, root, owner) && PoolFlat(mem, owner) && Apart(owner, page, reserved, db)
    requires |db| <= |mem| && (forall f | f in fl :: f < |db| && db[f].state == Free)
    requires fl != [] && fl[0] in fl && fl[0] !in fl[1..]
    requires t in owner && !owner[t].Pt? && i < ENTRIES && !Get(mem, t, i).flags.present
    ensures t < |mem| && |Zeroed(mem, fl[0])[t]| == ENTRIES
    ensures var n := fl[0];
      var mem' := Put(Zeroed(mem, n), t, i, TableEntry(n, flags));
      var owner' := owner[n := Sub(owner[t], i)];
      var db' := db[n := PfnEntry(NONE, Kernel, 1)];
      && Tree(mem', root, owner') && PoolFlat(mem', owner') && Apart(owner', page, reserved, db')
      && Grew(root, mem, owner, fl, mem', owner', fl[1..]) && SameOwned(db, db')
      && PointsTo(owner', n, Sub(owner[t], i)) && Step(mem, owner, mem', owner', t, i, n)
  {
    var n := fl[0];
    var e := TableEntry(n, flags);
    GetZeroed(mem, n, t, i);
    GetLinked(mem, t, i, n, e, t, i);
    forall g, j: nat
      ensures Get(Linked(mem, t, i, n, e), g, j) == if g == t && j == i then e else if g == n then ZERO
          else Get(mem, g, j)
    {
      GetLinked(mem, t, i, n, e, g, j);
    }
    LinkGrew(mem, root, owner, fl, t, i, e);
    LinkFlat(mem, root, owner, t, i, n, e);
  }

  lemma RootOwned(mem: Memory, root: nat, owner: map<nat, Path>)
    requires Tree(mem, root, owner)
    ensures PointsTo(owner, root, Pml4)
  {
  }

  /** The walk for va meets no 2 MB page. */
  predicate NoHuge(mem: Memory, root: nat, va: nat) {
    !OnLarge(mem, root, va)
  }

  /** The effect of mapping va: tables may have been added, then entry e was written into
      the slot of va in table pt. Exactly the page of va is translated anew. */
  ghost predicate Mapped(root: nat, mem: Memory, owner: map<nat, Path>, fl: seq<nat>,
                         mem': Memory, owner': map<nat, Path>, fl': seq<nat>, va: nat, pt: nat, e: Pte)
  {
    && |mem'| == |mem|
    && (forall f | f in owner :: f in owner' && owner'[f] == owner[f])
    && (forall f :: f in fl <==> f in fl' || (f in owner' && f !in owner))
    && (forall f | f in owner' && f !in owner :: f !in fl')
    && (forall f | 0 <= f < |mem| && f !in owner && f !in fl :: mem'[f] == mem[f])
    && (forall f, i: nat {:trigger LeafAt(mem', owner', f, i)} ::
          LeafAt(mem', owner', f, i) == if f == pt && i == I1(va) then e else LeafAt(mem, owner, f, i))
    && (forall va': nat {:trigger Translate(mem', root, va')} ::
          Translate(mem', root, va') == if SamePage(va, va') then e.frame * PAGE + va' % PAGE
            else Translate(mem, root, va'))
  }

  lemma GrewOwners(root: nat, mem: Memory, owner: map<nat, Path>, fl: seq<nat>, mem': Memory, owner': map<nat, Path>,
                   fl': seq<nat>)
    requires Grew(root, mem, owner, fl, mem', owner', fl')
    ensures forall f | f in owner :: f in owner' && owner'[f] == owner[f]
  {
  }

  lemma SameOwnedTrans(db1: seq<PfnEntry>, db2: seq<PfnEntry>, db3: seq<PfnEntry>)
    requires SameOwned(db1, db2) && SameOwned(db2, db3)
    ensures SameOwned(db1, db3)
  {
  }

  /** Writing the entry of va after tables were added. */
  lemma LeafStep(root: nat, m0: Memory, o0: map<nat, Path>, f0: seq<nat>, m: Memory, o: map<nat, Path>, f: seq<nat>,
                 va: nat, e: Pte)
    requires Grew(root, m0, o0, f0, m, o, f) && Tree(m, root, o) && PoolFlat(m, o) && PtOf(m, root, va).Some?
        && e.flags.present
    ensures var pt := PtOf(m, root, va).value;
      && pt < |m| && I1(va) < |m[pt]| && PointsTo(o, pt, Pt(I4(va), I3(va), I2(va)))
      && var m' := Put(m, pt, I1(va), e);
      && WellSized(m') && Tree(m', root, o) && PoolFlat(m', o) && Mapped(root, m0, o0, f0, m', o, f, va, pt, e)
  {
    var pt := PtOf(m, root, va).value;
    var m' := Put(m, pt, I1(va), e);
    WalkOwned(m, root, o, va);
    GetPut(m, pt, I1(va), e, pt, I1(va));
    LeafTree(m, root, o, pt, I1(va), e);
    LeafFlat(m, root, o, pt, I1(va), e);
    forall g, i: nat ensures LeafAt(m', o, g, i) == if g == pt && i == I1(va) then e else LeafAt(m0, o0, g, i) {
      GetPut(m, pt, I1(va), e, g, i);
      assert LeafAt(m, o, g, i) == LeafAt(m0, o0, g, i);
    }
    forall va': nat
      ensures Translate(m', root, va') == if SamePage(va, va') then e.frame * PAGE + va' % PAGE
          else Translate(m0, root, va')
    {
      LeafTranslates(m, root, o, va, e, va');
      assert Translate(m, root, va') == Translate(m0, root, va');
    }
    assert forall g | 0 <= g < |m| && g !in o0 && g !in f0 :: g != pt;
  }

  lemma LeafFlat(mem: Memory, root: nat, owner: map<nat, Path>, t: nat, i: nat, e: Pte)
    requires Tree(mem, root, owner) && PoolFlat(mem, owner) && t in owner && owner[t].Pt? && i < ENTRIES
    ensures t < |mem| && i < |mem[t]| && PoolFlat(Put(mem, t, i, e), owner)
  {
    forall f, j: nat | f in owner && PoolPd(owner[f]) ensures !Get(Put(mem, t, i, e), f, j).flags.huge {
      GetPut(mem, t, i, e, f, j);
    }
  }

  // ---------------------------------------------------------------- taking pages back

  /** The page of va is no longer mapped; nothing else changed. */
  ghost predicate Unmapped(root: nat, mem: Memory, mem': Memory, owner: map<nat, Path>, va: nat) {
    && |mem'| == |mem|
    && (forall f | 0 <= f < |mem| && f !in owner :: mem'[f] == mem[f])
    && (forall f: nat, i: nat {:trigger LeafAt(mem', owner, f, i)} ::
          LeafAt(mem', owner, f, i) == if PtOf(mem, root, va) == Some(f) && i == I1(va) then ZERO
            else LeafAt(mem, owner, f, i))
    && (forall va': nat {:trigger Translate(mem', root, va')} ::
          Translate(mem', root, va') == if SamePage(va, va') then 0 else Translate(mem, root, va'))
  }

  lemma SamePageTranslates(mem: Memory, root: nat, va: nat, va': nat)
    requires SamePage(va, va') && NoHuge(mem, root, va)
    ensures PtOf(mem, root, va) == PtOf(mem, root, va')
    ensures PtOf(mem, root, va).None? ==> Translate(mem, root, va') == 0
  {
  }

  lemma UnmapStep(root: nat, mem: Memory, owner: map<nat, Path>, va: nat)
    requires Tree(mem, root, owner) && PoolFlat(mem, owner) && NoHuge(mem, root, va)
    ensures match PtOf(mem, root, va)
      case None => Unmapped(root, mem, mem, owner, va)
      case Some(pt) =>
        && pt < |mem| && I1(va) < |mem[pt]|
        && var m' := Put(mem, pt, I1(va), ZERO);
        && WellSized(m') && |m'| == |mem| && Tree(m', root, owner) && PoolFlat(m', owner)
        && Unmapped(root, mem, m', owner, va)
  {
    WalkOwned(mem, root, owner, va);
    match PtOf(mem, root, va)
    case None =>
      forall va': nat ensures Translate(mem, root, va') == if SamePage(va, va') then 0 else Translate(mem, root, va') {
        if SamePage(va, va') {
          SamePageTranslates(mem, root, va, va');
        }
      }
    case Some(pt) =>
      UnmapPresent(root, mem, owner, va, pt);
  }

  lemma UnmapPresent(root: nat, mem: Memory, owner: map<nat, Path>, va: nat, pt: nat)
    requires Tree(mem, root, owner) && PoolFlat(mem, owner) && PtOf(mem, root, va) == Some(pt)
    requires pt in owner && owner[pt].Pt?
    ensures pt < |mem| && I1(va) < |mem[pt]|
    ensures var m' := Put(mem, pt, I1(va), ZERO);
      && WellSized(m') && |m'| == |mem| && Tree(m', root, owner) && PoolFlat(m', owner)
      && Unmapped(root, mem, m', owner, va)
  {
    var m' := Put(mem, pt, I1(va), ZERO);
    GetPut(mem, pt, I1(va), ZERO, pt, I1(va));
    LeafTree(mem, root, owner, pt, I1(va), ZERO);
    LeafFlat(mem, root, owner, pt, I1(va), ZERO);
    forall f, i: nat
      ensures LeafAt(m', owner, f, i) == if f == pt && i == I1(va) then ZERO else LeafAt(mem, owner, f, i)
    {
      GetPut(mem, pt, I1(va), ZERO, f, i);
    }
    forall va': nat ensures Translate(m', root, va') == if SamePage(va, va') then 0 else Translate(mem, root, va') {
      LeafTranslates(mem, root, owner, va, ZERO, va');
    }
  }

  /** The frame mapped at va, if any, as a list. */
  function MappedFrame(mem: Memory, root: nat, va: nat): seq<nat> {
    if Translate(mem, root, va) == 0 then [] else [Translate(mem, root, va) / PAGE]
  }

  /** A page-aligned address is mapped exactly when its slot is taken, and then by the
      frame that page records for the slot. */
  lemma MappedIsPage(root: nat, mem: Memory, owner: map<nat, Path>, page: map<nat, (nat, nat)>, db: seq<PfnEntry>,
                     va: nat)
    requires Tree(mem, root, owner) && Pages(mem, owner, page, db) && NoHuge(mem, root, va) && va % PAGE == 0
    ensures var pa := Translate(mem, root, va);
      if PtOf(mem, root, va).None? then pa == 0
      else var e := LeafAt(mem, owner, PtOf(mem, root, va).value, I1(va));
        if e.flags.present then pa == e.frame * PAGE && pa != 0
          && MapsTo(page, e.frame, PtOf(mem, root, va).value, I1(va))
        else pa == 0
  {
    WalkOwned(mem, root, owner, va);
  }

  lemma PageFrame(owner: map<nat, Path>, page: map<nat, (nat, nat)>, reserved: set<nat>, db: seq<PfnEntry>, mem: Memory,
                  g: nat)
    requires Pages(mem, owner, page, db) && g in page
    ensures g !in owner && 0 < g < |db| && db[g].state == Kernel && db[g].refCount == 1
  {
  }

  /** Giving back the page of va keeps pages, tables and free frames apart. */
  lemma ReleaseStep(root: nat, mem: Memory, owner: map<nat, Path>, page: map<nat, (nat, nat)>, reserved: set<nat>,
                    db: seq<PfnEntry>, mem': Memory, va: nat, head: nat)
    requires Tree(mem, root, owner) && Pages(mem, owner, page, db) && Apart(owner, page, reserved, db)
    requires NoHuge(mem, root, va) && va % PAGE == 0 && Unmapped(root, mem, mem', owner, va)
    ensures var pa := Translate(mem, root, va);
      if pa == 0 then Pages(mem', owner, page, db)
      else var g := pa / PAGE;
        && g < |db|
        && Pages(mem', owner, page - {g}, db[g := PfnEntry(head, Free, 0)])
        && Apart(owner, page - {g}, reserved, db[g := PfnEntry(head, Free, 0)])
  {
    MappedIsPage(root, mem, owner, page, db, va);
    var pa := Translate(mem, root, va);
    if pa == 0 {
      PagesSame(root, mem, owner, page, db, mem', va);
    } else {
      PagesLess(root, mem, owner, page, db, mem', va, pa / PAGE, head);
    }
  }

  lemma PagesSame(root: nat, mem: Memory, owner: map<nat, Path>, page: map<nat, (nat, nat)>, db: seq<PfnEntry>,
                  mem': Memory, va: nat)
    requires Pages(mem, owner, page, db) && Unmapped(root, mem, mem', owner, va)
    requires PtOf(mem, root, va).Some? ==> !LeafAt(mem, owner, PtOf(mem, root, va).value, I1(va)).flags.present
    ensures Pages(mem', owner, page, db)
  {
    forall g | g in page ensures var e := LeafAt(mem', owner, page[g].0, page[g].1); e.flags.present && e.frame == g {
      assert LeafAt(mem, owner, page[g].0, page[g].1).flags.present;
    }
  }

  lemma PagesLess(root: nat, mem: Memory, owner: map<nat, Path>, page: map<nat, (nat, nat)>, db: seq<PfnEntry>,
                  mem': Memory, va: nat, g: nat, head: nat)
    requires Pages(mem, owner, page, db) && Unmapped(root, mem, mem', owner, va) && PtOf(mem, root, va).Some?
    requires var pt := PtOf(mem, root, va).value;
      LeafAt(mem, owner, pt, I1(va)).flags.present && LeafAt(mem, owner, pt, I1(va)).frame == g
        && MapsTo(page, g, pt, I1(va))
    ensures g < |db| && Pages(mem', owner, page - {g}, db[g := PfnEntry(head, Free, 0)])
  {
    var page' := page - {g};
    var db' := db[g := PfnEntry(head, Free, 0)];
    forall f, i: nat | LeafAt(mem', owner, f, i).flags.present
      ensures MapsTo(page', LeafAt(mem', owner, f, i).frame, f, i)
    {
      assert MapsTo(page, LeafAt(mem, owner, f, i).frame, f, i);
    }
    forall h | h in page'
      ensures var e := LeafAt(mem', owner, page'[h].0, page'[h].1); e.flags.present && e.frame == h
    {
      assert LeafAt(mem, owner, page[h].0, page[h].1).frame == h;
    }
  }

  /** Unmapping a page after mapping it leaves every other translation as it was before
      both, and the page unmapped. */
  lemma UnmapUndoesMap(root: nat, m0: Memory, o0: map<nat, Path>, f0: seq<nat>, m1: Memory, o1: map<nat, Path>,
                       f1: seq<nat>, m2: Memory, va: nat, pt: nat, e: Pte, va': nat)
    requires Mapped(root, m0, o0, f0, m1, o1, f1, va, pt, e) && Unmapped(root, m1, m2, o1, va)
    ensures Translate(m2, root, va') == if SamePage(va, va') then 0 else Translate(m0, root, va')
  {
    assert !SamePage(va, va') ==> Translate(m1, root, va') == Translate(m0, root, va');
  }

  /** No frame backs two pages: page-aligned addresses with the same translation are in the
      same page. */
  lemma NoFrameTwice(root: nat, mem: Memory, owner: map<nat, Path>, page: map<nat, (nat, nat)>, db: seq<PfnEntry>,
                     va: nat, va': nat)
    requires Tree(mem, root, owner) && Pages(mem, owner, page, db) && NoHuge(mem, root, va) && NoHuge(mem, root, va')
    requires va % PAGE == 0 && va' % PAGE == 0
    requires Translate(mem, root, va) == Translate(mem, root, va') && Translate(mem, root, va) != 0
    ensures SamePage(va, va')
  {
    MappedIsPage(root, mem, owner, page, db, va);
    MappedIsPage(root, mem, owner, page, db, va');
    WalkOwned(mem, root, owner, va);
    WalkOwned(mem, root, owner, va');
  }

  // ---------------------------------------------------------------- runs of pool pages

  /** The pages of a run of n pages from base lie in the pool region. */
  predicate InPool(base: nat, n: nat) {
    base % PAGE == 0 && POOL_BASE <= base && base + n * PAGE <= POOL_LIMIT
  }

  /** Address of page k of a run. */
  function PageAt(base: nat, k: nat): nat {
    base + k * PAGE
  }

  ghost predicate InRun(base: nat, n: nat, va: nat) {
    exists k: nat :: k < n && SamePage(PageAt(base, k), va)
  }

  lemma PoolNoHuge(mem: Memory, root: nat, owner: map<nat, Path>, va: nat)
    requires Tree(mem, root, owner) && PoolFlat(mem, owner) && POOL_BASE <= va < POOL_LIMIT
    ensures NoHuge(mem, root, va)
  {
    WalkOwned(mem, root, owner, va);
    PoolSlots(va);
  }

  lemma PoolSlots(va: nat)
    requires POOL_BASE <= va < POOL_LIMIT
    ensures I4(va) == 511 && I3(va) < 510
  {
    assert va / 0x80_0000_0000 == 0x1FF_FFFF;
    assert va / 0x4000_0000 < 0x1FF_FFFF * 512 + 510;
  }

  lemma RunDistinct(base: nat, n: nat, k: nat, l: nat)
    requires InPool(base, n) && k < n && l < n && SamePage(PageAt(base, k), PageAt(base, l))
    ensures k == l
  {
    SamePageCanonical(PageAt(base, k), PageAt(base, l));
    assert (base + k * PAGE) / PAGE == base / PAGE + k;
    assert (base + l * PAGE) / PAGE == base / PAGE + l;
  }

  /** The pages of the run are no longer mapped; nothing else changed. */
  ghost predicate Cleared(root: nat, mem: Memory, mem': Memory, owner: map<nat, Path>, base: nat, n: nat) {
    && |mem'| == |mem|
    && (forall f | 0 <= f < |mem| && f !in owner :: mem'[f] == mem[f])
    && (forall va: nat {:trigger Translate(mem', root, va)} ::
          Translate(mem', root, va) == if InRun(base, n, va) then 0 else Translate(mem, root, va))
  }

  lemma ClearedNone(root: nat, mem: Memory, owner: map<nat, Path>, base: nat)
    ensures Cleared(root, mem, mem, owner, base, 0)
  {
  }

  lemma ClearedNext(root: nat, m0: Memory, m1: Memory, owner: map<nat, Path>, base: nat, k: nat, n: nat)
    requires Cleared(root, m0, m1, owner, base, k) && InPool(base, n) && k < n
    ensures MappedFrame(m1, root, PageAt(base, k)) == MappedFrame(m0, root, PageAt(base, k))
  {
    var va := PageAt(base, k);
    if InRun(base, k, va) {
      var l: nat :| l < k && SamePage(PageAt(base, l), va);
      RunDistinct(base, n, l, k);
    }
    assert Translate(m1, root, va) == Translate(m0, root, va);
  }

  lemma InRunNext(base: nat, k: nat, va: nat)
    ensures InRun(base, k + 1, va) <==> InRun(base, k, va) || SamePage(PageAt(base, k), va)
  {
    if InRun(base, k, va) {
      var l: nat :| l < k && SamePage(PageAt(base, l), va);
      assert l < k + 1 && SamePage(PageAt(base, l), va);
    }
  }

  lemma ClearedStep(root: nat, m0: Memory, m1: Memory, m2: Memory, owner: map<nat, Path>, base: nat, k: nat)
    requires Cleared(root, m0, m1, owner, base, k) && Unmapped(root, m1, m2, owner, PageAt(base, k))
    ensures Cleared(root, m0, m2, owner, base, k + 1)
  {
    forall va: nat ensures Translate(m2, root, va) == if InRun(base, k + 1, va) then 0 else Translate(m0, root, va) {
      InRunNext(base, k, va);
      assert Translate(m1, root, va) == if InRun(base, k, va) then 0 else Translate(m0, root, va);
    }
  }

  /** The frames mapped in the run, last page first: the order in which they come to stand
      on the free list. */
  function FreedRun(mem: Memory, root: nat, base: nat, n: nat): seq<nat> {
    if n == 0 then [] else MappedFrame(mem, root, PageAt(base, n - 1)) + FreedRun(mem, root, base, n - 1)
  }

  datatype Backing = NoFrame | NoTable | Backed

  /** The page of va is now backed by g, a frame that was free; tables may have been added;
      live data, the other last-level entries and the other translations are as before. */
  ghost predicate BackedPage(root: nat, mem: Memory, owner: map<nat, Path>, fl: seq<nat>,
                             mem': Memory, owner': map<nat, Path>, fl': seq<nat>, va: nat, g: nat)
  {
    && |mem'| == |mem| && 0 < g && g in fl && g !in fl' && g !in owner'
    && (forall f | f in owner :: f in owner' && owner'[f] == owner[f])
    && (forall f :: f in fl <==> f == g || f in fl' || (f in owner' && f !in owner))
    && (forall f | f in owner' && f !in owner :: f !in fl')
    && (forall f | 0 <= f < |mem| && f !in owner && f !in fl :: mem'[f] == mem[f])
    && (forall va': nat {:trigger Translate(mem', root, va')} ::
          Translate(mem', root, va') == if SamePage(va, va') then g * PAGE + va' % PAGE else Translate(mem, root, va'))
  }

  /** Zeroing a frame taken from the free list disturbs neither tables nor pages. */
  lemma TakeFrame(root: nat, mem: Memory, owner: map<nat, Path>, page: map<nat, (nat, nat)>, reserved: set<nat>,
                  db: seq<PfnEntry>, fl: seq<nat>)
    requires Tree(mem, root, owner) && PoolFlat(mem, owner) && Apart(owner, page, reserved, db)
        && Pages(mem, owner, page, db)
    requires |db| <= |mem| && fl != [] && fl[0] < |db| && db[fl[0]].state == Free
    ensures var g := fl[0]; var m := Zeroed(mem, g); var db' := db[g := PfnEntry(NONE, Kernel, 1)];
      && g !in owner && g !in page && g !in reserved
      && Tree(m, root, owner) && PoolFlat(m, owner) && Apart(owner, page, reserved, db') && Pages(m, owner, page, db')
      && (forall f, i: nat {:trigger LeafAt(m, owner, f, i)} :: LeafAt(m, owner, f, i) == LeafAt(mem, owner, f, i))
      && (forall va: nat {:trigger Translate(m, root, va)} :: Translate(m, root, va) == Translate(mem, root, va))
  {
    var g := fl[0];
    var m := Zeroed(mem, g);
    GetZeroed(mem, g, 0, 0);
    forall f, i: nat ensures Get(m, f, i) == if f == g then ZERO else Get(mem, f, i) {
      GetZeroed(mem, g, f, i);
    }
    forall va: nat ensures Translate(m, root, va) == Translate(mem, root, va) {
      TablesDecide(mem, m, root, owner, va);
    }
    TakeFramePages(mem, owner, page, db, g);
  }

  lemma TakeFramePages(mem: Memory, owner: map<nat, Path>, page: map<nat, (nat, nat)>, db: seq<PfnEntry>, g: nat)
    requires WellSized(mem) && Pages(mem, owner, page, db) && g < |mem| && g !in owner && g < |db|
        && db[g].state == Free
    ensures Pages(Zeroed(mem, g), owner, page, db[g := PfnEntry(NONE, Kernel, 1)])
    ensures forall f, i: nat {:trigger LeafAt(Zeroed(mem, g), owner, f, i)} ::
        LeafAt(Zeroed(mem, g), owner, f, i) == LeafAt(mem, owner, f, i)
  {
    var m := Zeroed(mem, g);
    forall f, i: nat ensures LeafAt(m, owner, f, i) == LeafAt(mem, owner, f, i) {
      GetZeroed(mem, g, f, i);
    }
  }

  /** An address made from a 32-bit frame number gives it back. */
  lemma FrameNumber(g: nat)
    requires g < WRAP_32
    ensures g * PAGE < WRAP_64 && g * PAGE / PAGE % WRAP_32 == g
  {
  }

  lemma OwnedFrame(db: seq<PfnEntry>, g: nat)
    requires Owned(db, g)
    ensures 0 < g < |db| && db[g].state != Free && db[g].refCount == 1
  {
  }

  lemma AddedAreFree(db: seq<PfnEntry>, head: nat, count: nat, fl: seq<nat>)
    requires FreeList(db, head, count, fl)
    ensures |db| <= NONE && forall f | f in fl :: f < |db| && db[f].state == Free
  {
  }

  /** page after slot (pt, i) is given to g: whatever it mapped before is no longer mapped. */
  ghost function PagesWith(page: map<nat, (nat, nat)>, mem: Memory, owner: map<nat, Path>, pt: nat, i: nat,
                           g: nat): map<nat, (nat, nat)>
  {
    var e := LeafAt(mem, owner, pt, i);
    (if e.flags.present then page - {e.frame} else page)[g := (pt, i)]
  }

  lemma PagesMore(root: nat, m1: Memory, o1: map<nat, Path>, f1: seq<nat>, page: map<nat, (nat, nat)>,
                  db1: seq<PfnEntry>, m2: Memory, o2: map<nat, Path>, f2: seq<nat>, db2: seq<PfnEntry>, va: nat,
                  pt: nat, e: Pte)
    requires Pages(m1, o1, page, db1) && Mapped(root, m1, o1, f1, m2, o2, f2, va, pt, e) && SameOwned(db1, db2)
    requires e.flags.present && Owned(db1, e.frame) && e.frame !in page && e.frame !in o2
    requires forall f | f in f1 :: f < |db1| && db1[f].state == Free
    ensures Pages(m2, o2, PagesWith(page, m1, o1, pt, I1(va), e.frame), db2)
  {
    var page' := PagesWith(page, m1, o1, pt, I1(va), e.frame);
    forall f, i: nat | LeafAt(m2, o2, f, i).flags.present ensures MapsTo(page', LeafAt(m2, o2, f, i).frame, f, i) {
      if !(f == pt && i == I1(va)) {
        assert MapsTo(page, LeafAt(m1, o1, f, i).frame, f, i);
      }
    }
    forall h | h in page' ensures var l := LeafAt(m2, o2, page'[h].0, page'[h].1); l.flags.present && l.frame == h {
      if h != e.frame {
        assert LeafAt(m1, o1, page[h].0, page[h].1).frame == h;
      }
    }
    assert forall h | h in page :: Owned(db1, h) && h !in o1 && h !in f1;
  }

  lemma PagesGrew(root: nat, m1: Memory, o1: map<nat, Path>, f1: seq<nat>, page: map<nat, (nat, nat)>,
                  db1: seq<PfnEntry>, m2: Memory, o2: map<nat, Path>, f2: seq<nat>, db2: seq<PfnEntry>)
    requires Pages(m1, o1, page, db1) && Grew(root, m1, o1, f1, m2, o2, f2) && SameOwned(db1, db2)
    requires forall f | f in f1 :: f < |db1| && db1[f].state == Free
    ensures Pages(m2, o2, page, db2)
  {
    forall h | h in page ensures var l := LeafAt(m2, o2, page[h].0, page[h].1); l.flags.present && l.frame == h {
      assert LeafAt(m1, o1, page[h].0, page[h].1).frame == h;
    }
    assert forall h | h in page :: Owned(db1, h) && h !in o1 && h !in f1;
  }

  /** Frame g was taken off the list for a page and zeroed; nobody has it, and this changed no
      translation. */
  ghost predicate Taken(root: nat, m0: Memory, o0: map<nat, Path>, f0: seq<nat>, page: map<nat, (nat, nat)>,
                        reserved: set<nat>, m1: Memory, f1: seq<nat>, db1: seq<PfnEntry>, g: nat)
  {
    && f0 != [] && g == f0[0] && f1 == f0[1..] && g !in f1 && g < |m0| && g !in o0 && WellSized(m0)
    && m1 == Zeroed(m0, g)
    && (forall va: nat {:trigger Translate(m1, root, va)} :: Translate(m1, root, va) == Translate(m0, root, va))
    && (forall f, i: nat {:trigger LeafAt(m1, o0, f, i)} :: LeafAt(m1, o0, f, i) == LeafAt(m0, o0, f, i))
    && Pages(m1, o0, page, db1) && (forall f | f in f1 :: f < |db1| && db1[f].state == Free)
    && g !in page && g !in reserved && Owned(db1, g)
  }

  lemma BackFailed(root: nat, m0: Memory, o0: map<nat, Path>, f0: seq<nat>, page: map<nat, (nat, nat)>,
                   reserved: set<nat>, m1: Memory, f1: seq<nat>, db1: seq<PfnEntry>, m2: Memory, o2: map<nat, Path>,
                   f2: seq<nat>, db2: seq<PfnEntry>, g: nat, head: nat)
    requires Taken(root, m0, o0, f0, page, reserved, m1, f1, db1, g)
    requires Grew(root, m1, o0, f1, m2, o2, f2) && f2 == [] && SameOwned(db1, db2) && Apart(o2, page, reserved, db2)
    ensures Owned(db2, g)
    ensures Pages(m2, o2, page, db2[g := PfnEntry(head, Free, 0)])
        && Apart(o2, page, reserved, db2[g := PfnEntry(head, Free, 0)])
    ensures Grew(root, m0, o0, f0, m2, o2, [g])
  {
    PagesGrew(root, m1, o0, f1, page, db1, m2, o2, f2, db2);
    FailGrew(root, m0, o0, f0, m1, f1, m2, o2, f2, g);
  }

  lemma FailGrew(root: nat, m0: Memory, o0: map<nat, Path>, f0: seq<nat>, m1: Memory, f1: seq<nat>,
                 m2: Memory, o2: map<nat, Path>, f2: seq<nat>, g: nat)
    requires f0 != [] && g == f0[0] && f1 == f0[1..] && g !in f1 && g < |m0| && g !in o0 && WellSized(m0)
        && m1 == Zeroed(m0, g)
    requires forall va: nat {:trigger Translate(m1, root, va)} :: Translate(m1, root, va) == Translate(m0, root, va)
    requires forall f, i: nat {:trigger LeafAt(m1, o0, f, i)} :: LeafAt(m1, o0, f, i) == LeafAt(m0, o0, f, i)
    requires Grew(root, m1, o0, f1, m2, o2, f2) && f2 == []
    ensures Grew(root, m0, o0, f0, m2, o2, [g]) && g !in o2
  {
    assert f0 == [g] + f1;
    assert forall f :: f in f0 <==> f == g || f in f1;
    forall f, i: nat ensures LeafAt(m2, o2, f, i) == LeafAt(m0, o0, f, i) {
      assert LeafAt(m2, o2, f, i) == LeafAt(m1, o0, f, i);
    }
    forall va: nat ensures Translate(m2, root, va) == Translate(m0, root, va) {
      assert Translate(m2, root, va) == Translate(m1, root, va);
    }
  }

  lemma BackDone(root: nat, m0: Memory, o0: map<nat, Path>, f0: seq<nat>, page: map<nat, (nat, nat)>,
                 reserved: set<nat>, m1: Memory, f1: seq<nat>, db1: seq<PfnEntry>, m2: Memory, o2: map<nat, Path>,
                 f2: seq<nat>, db2: seq<PfnEntry>, va: nat, pt: nat, g: nat, flags: Flags)
    requires Taken(root, m0, o0, f0, page, reserved, m1, f1, db1, g)
    requires Mapped(root, m1, o0, f1, m2, o2, f2, va, pt, LeafEntry(g * PAGE, flags)) && SameOwned(db1, db2)
    requires Apart(o2, page, reserved, db2)
    ensures var page' := PagesWith(page, m1, o0, pt, I1(va), g);
      Pages(m2, o2, page', db2) && Apart(o2, page', reserved, db2)
    ensures BackedPage(root, m0, o0, f0, m2, o2, f2, va, g)
  {
    var e := LeafEntry(g * PAGE, flags);
    assert e.frame == g;
    BackedStep(root, m0, o0, f0, m1, f1, m2, o2, f2, va, pt, g, e);
    PagesMore(root, m1, o0, f1, page, db1, m2, o2, f2, db2, va, pt, e);
  }

  lemma BackedStep(root: nat, m0: Memory, o0: map<nat, Path>, f0: seq<nat>, m1: Memory, f1: seq<nat>,
                   m2: Memory, o2: map<nat, Path>, f2: seq<nat>, va: nat, pt: nat, g: nat, e: Pte)
    requires f0 != [] && g == f0[0] && f1 == f0[1..] && g !in f1 && 0 < g < |m0| && g !in o0 && WellSized(m0)
        && m1 == Zeroed(m0, g)
    requires forall va: nat {:trigger Translate(m1, root, va)} :: Translate(m1, root, va) == Translate(m0, root, va)
    requires Mapped(root, m1, o0, f1, m2, o2, f2, va, pt, e) && e.frame == g
    ensures BackedPage(root, m0, o0, f0, m2, o2, f2, va, g)
  {
    assert f0 == [g] + f1;
    assert forall f :: f in f0 <==> f == g || f in f1;
    assert g in f0 && g !in f2 && g !in o2;
    forall va': nat
      ensures Translate(m2, root, va') == if SamePage(va, va') then g * PAGE + va' % PAGE else Translate(m0, root, va')
    {
      assert Translate(m1, root, va') == Translate(m0, root, va');
    }
  }

  // ---------------------------------------------------------------- vmm_alloc_pages

  datatype Outcome = Refused | Success | RanOut | NoTables

  /** Pages 0 to |got| - 1 of the run are backed by the frames got, which were free and are
      all different; the other frames that left the free list are new tables; live data and
      all other translations are as before. */
  ghost predicate RunBacked(root: nat, mem: Memory, owner: map<nat, Path>, fl: seq<nat>,
                          mem': Memory, owner': map<nat, Path>, fl': seq<nat>, base: nat, got: seq<nat>)
  {
    && |mem'| == |mem| && Distinct(got)
    && (forall g | g in got :: 0 < g && g in fl && g !in fl' && g !in owner')
    && (forall f | f in owner :: f in owner' && owner'[f] == owner[f])
    && (forall f :: f in fl <==> f in got || f in fl' || (f in owner' && f !in owner))
    && (forall f | f in owner' && f !in owner :: f !in fl')
    && (forall f | 0 <= f < |mem| && f !in owner && f !in fl :: mem'[f] == mem[f])
    && (forall k: nat, va: nat {:trigger SamePage(PageAt(base, k), va)} | k < |got| && SamePage(PageAt(base, k), va) ::
          Translate(mem', root, va) == got[k] * PAGE + va % PAGE)
    && (forall va: nat {:trigger Translate(mem', root, va)} | !InRun(base, |got|, va) ::
          Translate(mem', root, va) == Translate(mem, root, va))
  }

  lemma NothingBacked(root: nat, mem: Memory, owner: map<nat, Path>, fl: seq<nat>, base: nat)
    ensures RunBacked(root, mem, owner, fl, mem, owner, fl, base, [])
  {
  }

  lemma MoreBacked(root: nat, m0: Memory, o0: map<nat, Path>, f0: seq<nat>, m1: Memory, o1: map<nat, Path>,
                   f1: seq<nat>, m2: Memory, o2: map<nat, Path>, f2: seq<nat>, base: nat, got: seq<nat>, g: nat, n: nat)
    requires RunBacked(root, m0, o0, f0, m1, o1, f1, base, got)
        && BackedPage(root, m1, o1, f1, m2, o2, f2, PageAt(base, |got|), g)
    requires InPool(base, n) && |got| < n
    ensures RunBacked(root, m0, o0, f0, m2, o2, f2, base, got + [g])
  {
    hide Translate, LeafAt, I4, I3, I2, I1;
    var i := |got|;
    var got' := got + [g];
    assert g in f1 && g !in got;
    assert forall f :: f in got' <==> f in got || f == g;
    forall k: nat, va: nat | k < |got'| && SamePage(PageAt(base, k), va)
      ensures Translate(m2, root, va) == got'[k] * PAGE + va % PAGE
    {
      if k < i && SamePage(PageAt(base, i), va) {
        RunDistinct(base, n, k, i);
      }
      assert k < i ==> Translate(m1, root, va) == got[k] * PAGE + va % PAGE;
    }
    forall va: nat | !InRun(base, |got'|, va) ensures Translate(m2, root, va) == Translate(m0, root, va) {
      InRunNext(base, i, va);
      assert Translate(m1, root, va) == Translate(m0, root, va);
    }
  }

  /** After the rollback: no page of the run is mapped any more up to where it stopped, the
      other translations are as before, and the frames missing from the free list are new
      tables. */
  ghost predicate RolledBack(root: nat, mem: Memory, owner: map<nat, Path>, fl: seq<nat>,
                             mem': Memory, owner': map<nat, Path>, fl': seq<nat>, base: nat, got: seq<nat>)
  {
    && |mem'| == |mem|
    && (forall f | f in owner :: f in owner' && owner'[f] == owner[f])
    && (forall f :: f in fl <==> f in fl' || (f in owner' && f !in owner))
    && (forall f | f in owner' && f !in owner :: f !in fl')
    && (forall f | 0 <= f < |mem| && f !in owner && f !in fl :: mem'[f] == mem[f])
    && (forall va: nat {:trigger Translate(mem', root, va)} ::
          Translate(mem', root, va) == if InRun(base, |got|, va) then 0 else Translate(mem, root, va))
  }

  /** A rollback restores every translation if and only if the pages it took back were not
      mapped before. */
  lemma RestoresIff(root: nat, m0: Memory, o0: map<nat, Path>, f0: seq<nat>, m: Memory, o: map<nat, Path>, f: seq<nat>,
                    base: nat, got: seq<nat>)
    requires RolledBack(root, m0, o0, f0, m, o, f, base, got)
    ensures SameTranslations(root, m0, m) <==>
        forall va: nat {:trigger InRun(base, |got|, va)} | InRun(base, |got|, va) :: Translate(m0, root, va) == 0
  {
    if SameTranslations(root, m0, m) {
      forall va: nat | InRun(base, |got|, va) ensures Translate(m0, root, va) == 0 {
        assert Translate(m, root, va) == Translate(m0, root, va);
      }
    }
  }

  ghost predicate SameTranslations(root: nat, mem: Memory, mem': Memory) {
    forall va: nat {:trigger Translate(mem', root, va)} :: Translate(mem', root, va) == Translate(mem, root, va)
  }

  /** Nothing is mapped in the pool from address from on. */
  ghost predicate Unused(mem: Memory, root: nat, from: nat) {
    forall va: nat {:trigger Translate(mem, root, va)} | from <= va < POOL_LIMIT :: Translate(mem, root, va) == 0
  }

  lemma PoolCanonical(va: nat)
    requires POOL_BASE <= va < POOL_LIMIT
    ensures Canonical(va)
  {
  }

  /** In the pool, the addresses of a run are those between its ends. */
  lemma RunRange(base: nat, n: nat, va: nat)
    requires InPool(base, n) && POOL_BASE <= va < POOL_LIMIT
    ensures InRun(base, n, va) <==> base <= va < base + n * PAGE
  {
    PoolCanonical(va);
    if InRun(base, n, va) {
      var k: nat :| k < n && SamePage(PageAt(base, k), va);
      RunPage(base, n, k, va);
    }
    if base <= va < base + n * PAGE {
      var k := (va - base) / PAGE;
      RunPage(base, n, k, va);
      assert InRun(base, n, va);
    }
  }

  lemma RunPage(base: nat, n: nat, k: nat, va: nat)
    requires InPool(base, n) && k < n && POOL_BASE <= va < POOL_LIMIT
    ensures SamePage(PageAt(base, k), va) <==> base + k * PAGE <= va < base + k * PAGE + PAGE
  {
    PoolCanonical(va);
    PoolCanonical(PageAt(base, k));
    SamePageCanonical(PageAt(base, k), va);
    hide SamePage, Canonical;
    PageBounds(PageAt(base, k), va);
  }

  lemma PageBounds(a: nat, va: nat)
    requires a % PAGE == 0
    ensures a / PAGE == va / PAGE <==> a <= va < a + PAGE
  {
  }

  /** Every address of a page translates like the one in the pool with the same offset. */
  lemma AliasUnused(mem: Memory, root: nat, from: nat, base: nat, n: nat, va: nat)
    requires Unused(mem, root, from) && from <= base && InPool(base, n) && InRun(base, n, va)
    ensures Translate(mem, root, va) == 0
  {
    hide I4, I3, I2, I1, Translate;
    var k: nat :| k < n && SamePage(PageAt(base, k), va);
    var va' := PageAt(base, k) + va % PAGE;
    RunPage(base, n, k, va');
    assert PageAt(base, k) == (base / PAGE + k) * PAGE;
    assert va' % PAGE == va % PAGE && SamePage(va', va);
    AliasTranslates(mem, root, va, va');
  }

  lemma AliasTranslates(mem: Memory, root: nat, va: nat, va': nat)
    requires SamePage(va, va') && va % PAGE == va' % PAGE
    ensures Translate(mem, root, va) == Translate(mem, root, va')
  {
    Offset2M(va);
    Offset2M(va');
    hide I4, I3, I2, I1;
    assert PdEntry(mem, root, va) == PdEntry(mem, root, va');
  }

  lemma Offset2M(va: nat)
    ensures va % PAGE_2M == I1(va) * PAGE + va % PAGE
  {
  }

  /** A finished run leaves the pool behind it unused; an abandoned one does not, since its
      pages stay mapped. */
  lemma BackedUnused(root: nat, m0: Memory, o0: map<nat, Path>, f0: seq<nat>, m: Memory, o: map<nat, Path>, f: seq<nat>,
                     base: nat, got: seq<nat>)
    requires RunBacked(root, m0, o0, f0, m, o, f, base, got) && Unused(m0, root, base) && InPool(base, |got|)
    ensures Unused(m, root, base + |got| * PAGE)
    ensures got != [] ==> !Unused(m, root, base)
  {
    forall va: nat | base + |got| * PAGE <= va < POOL_LIMIT ensures Translate(m, root, va) == 0 {
      RunRange(base, |got|, va);
      assert Translate(m, root, va) == Translate(m0, root, va);
    }
    if got != [] {
      SamePageRefl(base);
      assert PageAt(base, 0) == base && got[0] in got && SamePage(PageAt(base, 0), base);
      assert Translate(m, root, base) == got[0] * PAGE + base % PAGE;
    }
  }

  /** A rollback in an unused pool restores every translation. */
  lemma RolledBackUnused(root: nat, m0: Memory, o0: map<nat, Path>, f0: seq<nat>, m: Memory, o: map<nat, Path>,
                         f: seq<nat>, base: nat, got: seq<nat>)
    requires RolledBack(root, m0, o0, f0, m, o, f, base, got) && Unused(m0, root, base) && InPool(base, |got|)
    ensures SameTranslations(root, m0, m) && Unused(m, root, base)
  {
    forall va: nat ensures Translate(m, root, va) == Translate(m0, root, va) {
      if InRun(base, |got|, va) {
        AliasUnused(m0, root, base, base, |got|, va);
      }
    }
  }

  lemma ClearedUnused(root: nat, mem: Memory, mem': Memory, owner: map<nat, Path>, base: nat, n: nat, from: nat)
    requires Cleared(root, mem, mem', owner, base, n) && Unused(mem, root, from)
    ensures Unused(mem', root, from)
  {
  }

  lemma SamePageRefl(va: nat)
    ensures SamePage(va, va)
  {
  }

  lemma {:induction false} FreedRunMembers(root: nat, m0: Memory, o0: map<nat, Path>, f0: seq<nat>, m: Memory,
                                           o: map<nat, Path>, f: seq<nat>, base: nat, got: seq<nat>, k: nat)
    requires RunBacked(root, m0, o0, f0, m, o, f, base, got) && k <= |got|
    ensures |FreedRun(m, root, base, k)| == k && forall g :: g in FreedRun(m, root, base, k) <==> g in got[..k]
  {
    hide Translate, SamePage, InRun, LeafAt;
    if k > 0 {
      FreedRunMembers(root, m0, o0, f0, m, o, f, base, got, k - 1);
      var j := k - 1;
      var va := PageAt(base, j);
      SamePageRefl(va);
      assert got[j] in got && SamePage(PageAt(base, j), va);
      assert Translate(m, root, va) == got[j] * PAGE + va % PAGE;
      assert got[..k] == got[..k - 1] + [got[k - 1]];
    }
  }

  /** Releasing the pages of a run, in a rollback or in vmm_free_pages after a success,
      gives back every frame that backed them; only new tables stay allocated. */
  lemma ReleaseGivesBack(root: nat, m0: Memory, o0: map<nat, Path>, f0: seq<nat>, m1: Memory, o1: map<nat, Path>,
                         f1: seq<nat>, m2: Memory, f2: seq<nat>, base: nat, got: seq<nat>)
    requires RunBacked(root, m0, o0, f0, m1, o1, f1, base, got)
    requires Cleared(root, m1, m2, o1, base, |got|) && f2 == FreedRun(m1, root, base, |got|) + f1
    ensures RolledBack(root, m0, o0, f0, m2, o1, f2, base, got) && |f2| == |got| + |f1|
  {
    FreedRunMembers(root, m0, o0, f0, m1, o1, f1, base, got, |got|);
    assert got[..|got|] == got;
    forall va: nat ensures Translate(m2, root, va) == if InRun(base, |got|, va) then 0 else Translate(m0, root, va) {
      assert InRun(base, |got|, va) || Translate(m1, root, va) == Translate(m0, root, va);
    }
  }

  /** Adding tables afterwards changes none of this. */
  lemma RunBackedGrew(root: nat, m0: Memory, o0: map<nat, Path>, f0: seq<nat>, m1: Memory, o1: map<nat, Path>,
                      f1: seq<nat>, m2: Memory, o2: map<nat, Path>, f2: seq<nat>, base: nat, got: seq<nat>)
    requires RunBacked(root, m0, o0, f0, m1, o1, f1, base, got) && Grew(root, m1, o1, f1, m2, o2, f2)
    ensures RunBacked(root, m0, o0, f0, m2, o2, f2, base, got)
  {
    hide Translate, SamePage, InRun, LeafAt;
    forall k: nat, va: nat | k < |got| && SamePage(PageAt(base, k), va)
      ensures Translate(m2, root, va) == got[k] * PAGE + va % PAGE
    {
      assert Translate(m1, root, va) == got[k] * PAGE + va % PAGE;
    }
    forall va: nat | !InRun(base, |got|, va) ensures Translate(m2, root, va) == Translate(m0, root, va) {
      assert Translate(m1, root, va) == Translate(m0, root, va);
    }
  }

  /** Without last-level tables nothing is mapped in the pool yet. */
  lemma NoPagesYet(mem: Memory, tree: map<nat, Path>, db: seq<PfnEntry>, reserved: set<nat>)
    requires forall f | f in tree :: !tree[f].Pt? && (f < |db| ==> db[f].state != Free)
    requires forall f | f in reserved :: 0 <= f < |db| && db[f].state != Free && f !in tree
    ensures Apart(tree, map[], reserved, db) && Pages(mem, tree, map[], db)
  {
  }

  lemma TreeSized(mem: Memory, root: nat, owner: map<nat, Path>)
    requires Tree(mem, root, owner)
    ensures WellSized(mem)
  {
  }
}

/** kernel/mm/vmm.c: the frame allocator and the page tables built from its frames. */
module VirtualMemory {
  import opened Basics
  import opened Paging
  import opened Frames
  import opened Spaces
  import opened Tables
  import opened MemoryMap

  class Vmm {
    /** The frame database, one entry a frame. */
    var pfn: array<PfnEntry>
    var freeHead: nat
    var freeCount: nat
    /** Physical memory, all of it reachable at its own address. */
    var mem: Memory
    /** Physical address of the kernel PML4, or 0. */
    var pml4: nat
    /** Next address of the pool. */
    var poolNext: nat

    ghost var fl: seq<nat>
    ghost var owner: map<nat, Path>
    ghost var page: map<nat, (nat, nat)>
    /** Frames of the kernel image and of the frame database. */
    ghost var reserved: set<nat>

    ghost function Root(): nat
      reads this`pml4
    {
      pml4 / PAGE
    }

    ghost predicate FramesValid()
      reads this`pfn, this`freeHead, this`freeCount, this`fl, this`mem, pfn
    {
      FreeList(pfn[..], freeHead, freeCount, fl) && WellSized(mem) && pfn.Length <= |mem|
    }

    /** The tables form a tree of unshared frames, apart from the free and the reserved. */
    ghost predicate TablesValid()
      reads this`pfn, this`freeHead, this`freeCount, this`fl, this`mem, this`pml4, this`owner, this`page
      reads this`reserved, pfn
    {
      && FramesValid() && pml4 != 0 && pml4 % PAGE == 0
      && Tree(mem, Root(), owner) && PoolFlat(mem, owner)
      && Apart(owner, page, reserved, pfn[..])
    }

    /** Free frames, tables and mapped pages are pairwise disjoint, and no frame backs two
        pages. */
    ghost predicate SpaceValid()
      reads this`pfn, this`freeHead, this`freeCount, this`fl, this`mem, this`pml4, this`owner, this`page
      reads this`reserved, pfn
    {
      FramesValid() && (pml4 != 0 ==> TablesValid() && Pages(mem, owner, page, pfn[..]))
    }

    ghost predicate Valid()
      reads this, pfn
    {
      SpaceValid() && poolNext % PAGE == 0 && POOL_BASE <= poolNext <= POOL_LIMIT
    }

    /** No page from poolNext on is mapped in the pool. */
    ghost predicate Clean()
      reads this`mem, this`pml4, this`poolNext
    {
      Unused(mem, Root(), poolNext)
    }

    /** Do the free frames run out exactly before one of the first n pages? */
    ghost predicate UsedUpBefore(n: nat)
      reads this`mem, this`pml4, this`poolNext, this`freeCount
    {
      UsedUp(mem, Root(), poolNext, n, freeCount)
    }

    /** The frames that the first k pages from poolNext on would take. */
    ghost function Needed(k: nat): nat
      reads this`mem, this`pml4, this`poolNext
    {
      Demand(mem, Root(), poolNext, k)
    }

    /** Would a call for n pages stop within the tables of a page, with pages mapped before
        it? */
    ghost predicate Abandons(n: nat)
      reads this`mem, this`pml4, this`poolNext, this`freeCount
    {
      pml4 != 0 && StopsWithin(mem, Root(), poolNext, n, freeCount)
    }

    /** vmm_alloc_physical (vmm.c:140-155): the most recently freed frame, zeroed; 0 when
        none is left. */
    method AllocPhysical() returns (pa: nat)
      requires FramesValid()
      modifies this`freeHead, this`freeCount, this`mem, this`fl, pfn
      ensures FramesValid()
      ensures old(fl) == [] ==> pa == 0 && fl == [] && mem == old(mem) && pfn[..] == old(pfn[..])
      ensures old(fl) != [] ==>
                var f := old(fl)[0];
                && pa == f * PAGE && 0 < f < pfn.Length && fl == old(fl)[1..] && f !in fl
                && mem == Zeroed(old(mem), f) && pfn[..] == old(pfn[..])[f := PfnEntry(NONE, Kernel, 1)]
    {
      pa := 0;
      assert fl != [] ==> NextAt(pfn[..], fl, 0);
      if freeHead == NONE {
        return;
      }
      PopFree(pfn[..], freeHead, freeCount, fl);
      ghost var db := pfn[..];
      var f := freeHead;
      freeHead := pfn[f].nextFree;
      pfn[f] := PfnEntry(NONE, Kernel, 1);
      freeCount := freeCount - 1;
      assert pfn[..] == db[f := PfnEntry(NONE, Kernel, 1)];
      fl := fl[1..];
      GetZeroed(mem, f, f, 0);
      mem := Zeroed(mem, f);
      pa := f * PAGE;
    }

    /** vmm_free_physical (vmm.c:160-170). Giving back a frame that is free already breaks the
        list, and nothing else does. */
    method FreePhysical(pa: nat)
      requires FramesValid() && pa < WRAP_64
      modifies this`freeHead, this`freeCount, this`fl, pfn
      ensures var f := pa / PAGE % WRAP_32;
        FramesValid() <==> !(0 < f < pfn.Length && old(pfn[f].state) == Free && old(pfn[f].refCount) <= 1)
      ensures var f := pa / PAGE % WRAP_32;
        if f == 0 || f >= pfn.Length then
          fl == old(fl) && pfn[..] == old(pfn[..])
        else if old(pfn[f].refCount) > 1 then
          fl == old(fl) && pfn[..] == old(pfn[..])[f := old(pfn[f]).(refCount := old(pfn[f].refCount) - 1)]
        else
          fl == [f] + old(fl) && pfn[..] == old(pfn[..])[f := PfnEntry(old(freeHead), Free, 0)]
    {
      var f := pa / PAGE % WRAP_32;
      if f == 0 || f >= pfn.Length {
        return;
      }
      ghost var db := pfn[..];
      if pfn[f].refCount > 0 {
        pfn[f] := pfn[f].(refCount := pfn[f].refCount - 1);
      }
      if pfn[f].refCount > 0 {
        assert pfn[..] == db[f := db[f].(refCount := db[f].refCount - 1)];
        SharedEntry(db, freeHead, freeCount, fl, f, pfn[f]);
        return;
      }
      if pfn[f].state != Free {
        PushFree(db, freeHead, freeCount, fl, f);
      } else {
        assert f in fl;
        PushedTwice(fl, f);
      }
      pfn[f] := PfnEntry(freeHead, Free, pfn[f].refCount);
      freeHead := f;
      freeCount := freeCount + 1;
      fl := [f] + fl;
      assert pfn[..] == db[f := PfnEntry(old(freeHead), Free, 0)];
    }
  
    /** One level of vmm_map_page (vmm.c:189-197, 200-208, 211-221): the table behind slot i
        of table t, made if there is none. Not ok when no frame is left for it. */
    method Descend(t: nat, i: nat, flags: Flags, isPd: bool) returns (ok: bool, child: nat)
      requires TablesValid() && t in owner && !owner[t].Pt? && i < ENTRIES && isPd == owner[t].Pd?
      requires isPd ==> !(Get(mem, t, i).flags.present && Get(mem, t, i).flags.huge)
      modifies this`freeHead, this`freeCount, this`mem, this`fl, this`owner, pfn
      ensures TablesValid()
      ensures Grew(Root(), old(mem), old(owner), old(fl), mem, owner, fl)
      ensures SameOwned(old(pfn[..]), pfn[..])
      ensures ok <==> !(old(fl) == [] && !old(Get(mem, t, i).flags.present))
      ensures if ok then |fl| + (if old(Get(mem, t, i).flags.present) then 0 else 1) == |old(fl)| else fl == []
      ensures ok ==> PointsTo(owner, child, Sub(old(owner)[t], i))
      ensures ok ==> Step(old(mem), old(owner), mem, owner, t, i, child)
    {
      SlotThere(mem, Root(), owner, t, i);
      hide PoolFlat, Grew, FreeList, Apart, Tree, Step, SameOwned;
      var e := Get(mem, t, i);
      if !e.flags.present {
        ok, child := MakeTable(t, i, flags);
      } else {
        ok, child := true, e.frame;
        if isPd {
          PutSame(mem, t, i);
          mem := Put(mem, t, i, e.(flags := e.flags.(huge := false)));
        }
        GrewRefl(Root(), mem, owner, fl);
        SameOwnedRefl(pfn[..]);
      }
    }

    /** A table for an empty slot (vmm.c:191-194, 202-205, 213-216). */
    method MakeTable(t: nat, i: nat, flags: Flags) returns (ok: bool, child: nat)
      requires TablesValid() && t in owner && !owner[t].Pt? && i < ENTRIES && !Get(mem, t, i).flags.present
      modifies this`freeHead, this`freeCount, this`mem, this`fl, this`owner, pfn
      ensures TablesValid()
      ensures Grew(Root(), old(mem), old(owner), old(fl), mem, owner, fl)
      ensures SameOwned(old(pfn[..]), pfn[..])
      ensures ok <==> old(fl) != []
      ensures if ok then |fl| + 1 == |old(fl)| else fl == []
      ensures ok ==> PointsTo(owner, child, Sub(old(owner)[t], i))
      ensures ok ==> Step(old(mem), old(owner), mem, owner, t, i, child)
    {
      hide PoolFlat, Grew, FreeList, Apart, Tree, Step;
      ghost var mem0, owner0, fl0, db0 := mem, owner, fl, pfn[..];
      ListedIsFree(db0, freeHead, freeCount, fl0);
      var pa := AllocPhysical();
      if pa == 0 {
        GrewRefl(Root(), mem, owner, fl);
        return false, 0;
      }
      ok, child := true, pa / PAGE;
      LinkStep(mem0, Root(), owner0, page, reserved, db0, fl0, t, i, flags);
      mem := Put(mem, t, i, TableEntry(child, flags));
      owner := owner[child := Sub(owner[t], i)];
    }
  
    /** The walk of vmm_map_page (vmm.c:188-221): the last-level table of va. It takes a
        frame for each table that is missing, and fails exactly when there are too few. */
    method Walk(va: nat, flags: Flags) returns (ok: bool, last: nat)
      requires TablesValid() && NoHuge(mem, Root(), va)
      modifies this`freeHead, this`freeCount, this`mem, this`fl, this`owner, pfn
      ensures TablesValid() && SameOwned(old(pfn[..]), pfn[..])
      ensures Grew(Root(), old(mem), old(owner), old(fl), mem, owner, fl)
      ensures ok <==> |old(fl)| >= Missing(old(mem), Root(), va)
      ensures if ok then |fl| == |old(fl)| - Missing(old(mem), Root(), va) else fl == []
      ensures ok ==> PtOf(mem, Root(), va) == Some(last) && Added(Root(), old(mem), mem, Needs(va))
    {
      hide Tree, PoolFlat, Apart, FreeList, Grew, SameOwned, Step, Has, TableOf, Added, Lacks, Needs, NoHuge, PtOf;
      ghost var m0, o0, f0, db0, root := mem, owner, fl, pfn[..], Root();
      last := 0;
      var t := pml4 / PAGE;
      RootOwned(mem, root, owner);
      RootTable(m0, root, Pml4, I4(va), 0);
      LacksAt(m0, root, Pml4, root, I4(va));
      var pdpt;
      ok, pdpt := Descend(t, I4(va), flags, false);
      ghost var m1, o1, f1, db1 := mem, owner, fl, pfn[..];
      if !ok {
        return;
      }
      WalkAddsOne(root, va, m0, o0, m1, o1, pdpt);
      LacksAt(m1, root, Pdpt(I4(va)), pdpt, I3(va));
      LacksKept(root, m0, m1, Pdpt(I4(va)), Pd(I4(va), I3(va)));
      var pd;
      ok, pd := Descend(pdpt, I3(va), flags, false);
      ghost var m2, o2, f2, db2 := mem, owner, fl, pfn[..];
      GrewTrans(root, m0, o0, f0, m1, o1, f1, m2, o2, f2);
      SameOwnedTrans(db0, db1, db2);
      if !ok {
        return;
      }
      StepsNoHuge(root, va, m0, o0, m1, o1, pdpt, m2, o2, pd);
      WalkAddsTwo(root, va, m0, o0, m1, o1, pdpt, m2, o2, pd);
      LacksLast(root, va, m0, m2, pd);
      ok, last := Descend(pd, I2(va), flags, true);
      GrewTrans(root, m0, o0, f0, m2, o2, f2, mem, owner, fl);
      SameOwnedTrans(db0, db2, pfn[..]);
      if !ok {
        return;
      }
      GrewOwners(root, m0, o0, f0, m1, o1, f1);
      GrewOwners(root, m1, o1, f1, m2, o2, f2);
      StepsReach(root, va, m0, o0, m1, o1, pdpt, m2, o2, pd, mem, owner, last);
      WalkAdds(root, va, m0, o0, m1, o1, pdpt, m2, o2, pd, mem, owner, last);
    }

    /** The walk of vmm_map_page where it ends in a 2 MB page: every table is there, the flag
        of the page is cleared, and its frame is taken for the last table. */
    method WalkLarge(va: nat) returns (last: nat)
      requires OnLarge(mem, Root(), va)
      modifies this`mem
      ensures last == PdEntry(old(mem), Root(), va).frame && mem == Reread(old(mem), Root(), va)
    {
      var pdpt := Get(mem, pml4 / PAGE, I4(va)).frame;
      var pd := Get(mem, pdpt, I3(va)).frame;
      var e := Get(mem, pd, I2(va));
      last := e.frame;
      mem := PutIn(mem, pd, I2(va), e.(flags := e.flags.(huge := false)));
    }

    /** vmm_map_page (vmm.c:181-230), for a physical address below 2^52. On success pt is the
        last-level table whose entry was written. On the path of a 2 MB page it always reports
        success, and its effect is that of MappedOver. */
    method MapPage(va: nat, pa: nat, flags: Flags) returns (r: int, ghost pt: nat)
      requires TablesValid() && pa < 0x10_0000_0000_0000
      modifies this`freeHead, this`freeCount, this`mem, this`fl, this`owner, pfn
      ensures r == 0 || r == -1
      ensures old(NoHuge(mem, Root(), va)) ==> TablesValid() && SameOwned(old(pfn[..]), pfn[..])
      ensures r == -1 ==> fl == [] && Grew(Root(), old(mem), old(owner), old(fl), mem, owner, fl)
      ensures r == 0 && old(NoHuge(mem, Root(), va)) ==>
                pt in owner && owner[pt] == Pt(I4(va), I3(va), I2(va))
                && Mapped(Root(), old(mem), old(owner), old(fl), mem, owner, fl, va, pt, LeafEntry(pa, flags))
      // it takes a frame for each table that is missing, and fails exactly when there are too few
      ensures old(NoHuge(mem, Root(), va)) ==> (r == 0 <==> |old(fl)| >= Missing(old(mem), Root(), va))
      ensures r == 0 && old(NoHuge(mem, Root(), va)) ==>
                |fl| == |old(fl)| - Missing(old(mem), Root(), va) && Added(Root(), old(mem), mem, Needs(va))
      ensures old(OnLarge(mem, Root(), va)) ==>
                && r == 0 && mem == MappedOver(old(mem), Root(), va, LeafEntry(pa, flags))
                && owner == old(owner) && fl == old(fl) && FramesValid() && pfn[..] == old(pfn[..])
    {
      hide Tree, PoolFlat, Apart, FreeList, Grew, SameOwned, Mapped, Added, Missing, Needs;
      ghost var m0, o0, f0, root := mem, owner, fl, Root();
      if OnLarge(mem, pml4 / PAGE, va) {
        var frame := WalkLarge(va);
        mem := PutIn(mem, frame, I1(va), LeafEntry(pa, flags));
        return 0, frame;
      }
      var ok, last := Walk(va, flags);
      if !ok {
        return -1, 0;
      }
      ghost var m3 := mem;
      LeafStep(root, m0, o0, f0, m3, owner, fl, va, LeafEntry(pa, flags));
      LeafAdds(root, m0, m3, owner, Needs(va), last, I1(va), LeafEntry(pa, flags));
      mem := Put(mem, last, I1(va), LeafEntry(pa, flags));
      r, pt := 0, last;
    }
  
    /** vmm_unmap_page (vmm.c:235-250). In a 2 MB page it clears a word of the data. */
    method UnmapPage(va: nat)
      requires FramesValid() && Tree(mem, Root(), owner) && PoolFlat(mem, owner)
      modifies this`mem
      ensures FramesValid()
      ensures if old(NoHuge(mem, Root(), va)) then
                Tree(mem, Root(), owner) && PoolFlat(mem, owner) && Unmapped(Root(), old(mem), mem, owner, va)
              else mem == PutIn(old(mem), PdEntry(old(mem), Root(), va).frame, I1(va), ZERO)
    {
      hide Tree, PoolFlat, FreeList, Unmapped;
      var t := pml4 / PAGE;
      if NoHuge(mem, Root(), va) {
        UnmapStep(Root(), mem, owner, va);
      }
      if !Get(mem, t, I4(va)).flags.present {
        return;
      }
      var pdpt := Get(mem, t, I4(va)).frame;
      if !Get(mem, pdpt, I3(va)).flags.present {
        return;
      }
      var pd := Get(mem, pdpt, I3(va)).frame;
      if !Get(mem, pd, I2(va)).flags.present {
        return;
      }
      var pt := Get(mem, pd, I2(va)).frame;
      mem := PutIn(mem, pt, I1(va), ZERO);
    }

    /** vmm_virt_to_phys (vmm.c:255-274). */
    method VirtToPhys(va: nat) returns (pa: nat)
      ensures pa == Translate(mem, Root(), va)
    {
      var pdpt := Get(mem, pml4 / PAGE, I4(va));
      if !pdpt.flags.present {
        return 0;
      }
      var pd := Get(mem, pdpt.frame, I3(va));
      if !pd.flags.present {
        return 0;
      }
      var e := Get(mem, pd.frame, I2(va));
      if !e.flags.present {
        return 0;
      }
      if e.flags.huge {
        return e.frame * PAGE + va % PAGE_2M;
      }
      var pte := Get(mem, e.frame, I1(va));
      if !pte.flags.present {
        return 0;
      }
      pa := pte.frame * PAGE + va % PAGE;
    }

    /** One turn of the loops that give pages back (vmm.c:309-312, 333-336). */
    method ReleasePage(va: nat)
      requires SpaceValid() && pml4 != 0 && InPool(va, 1)
      modifies this`freeHead, this`freeCount, this`mem, this`fl, this`page, pfn
      ensures SpaceValid()
      ensures Unmapped(Root(), old(mem), mem, owner, va)
      ensures fl == MappedFrame(old(mem), Root(), va) + old(fl)
    {
      hide Tree, PoolFlat, Unmapped, Pages, Apart;
      ghost var m0, p0, db0, h0, root := mem, page, pfn[..], freeHead, Root();
      PoolNoHuge(m0, root, owner, va);
      MappedIsPage(root, m0, owner, p0, db0, va);
      var pa := VirtToPhys(va);
      if pa != 0 {
        PageFrame(owner, p0, reserved, db0, m0, pa / PAGE);
        FreePhysical(pa);
        page := page - {pa / PAGE};
      }
      UnmapPage(va);
      ReleaseStep(root, m0, owner, p0, reserved, db0, mem, va, h0);
    }
  
    /** The loops that give back pages 0 to n - 1 of a run (vmm.c:308-313, 332-337). */
    method ReleaseRun(base: nat, n: nat)
      requires SpaceValid() && pml4 != 0 && InPool(base, n)
      modifies this`freeHead, this`freeCount, this`mem, this`fl, this`page, pfn
      ensures SpaceValid()
      ensures Cleared(Root(), old(mem), mem, owner, base, n)
      ensures fl == FreedRun(old(mem), Root(), base, n) + old(fl)
    {
      hide Vmm.SpaceValid, MappedFrame, Unmapped, Cleared;
      ghost var m0, root, fl0 := mem, Root(), fl;
      ClearedNone(root, m0, owner, base);
      var k := 0;
      while k < n
        invariant k <= n && SpaceValid() && root == Root()
        invariant Cleared(root, m0, mem, owner, base, k)
        invariant fl == FreedRun(m0, root, base, k) + fl0
      {
        ghost var m1 := mem;
        var va := PageAt(base, k);
        ClearedNext(root, m0, m1, owner, base, k, n);
        ReleasePage(va);
        ClearedStep(root, m0, m1, mem, owner, base, k);
        k := k + 1;
      }
    }

    /** vmm_free_pages (vmm.c:330-338), on pages of the pool, mapped or not. */
    method FreePages(va: nat, n: nat)
      requires Valid() && (pml4 != 0 ==> InPool(va, n))
      modifies this`freeHead, this`freeCount, this`mem, this`fl, this`page, pfn
      ensures Valid()
      ensures va == 0 || n == 0 || pml4 == 0 ==> mem == old(mem) && fl == old(fl) && page == old(page)
      ensures va != 0 && n != 0 && pml4 != 0 ==>
                Cleared(Root(), old(mem), mem, owner, va, n) && fl == FreedRun(old(mem), Root(), va, n) + old(fl)
      ensures old(Clean()) ==> Clean()
    {
      ghost var m0 := mem;
      if va == 0 || n == 0 || pml4 == 0 {
        return;
      }
      ReleaseRun(va, n);
      if Unused(m0, Root(), poolNext) {
        ClearedUnused(Root(), m0, mem, owner, va, n, poolNext);
      }
    }

    /** One turn of the loop of vmm_alloc_pages (vmm.c:305-321), up to the rollback. */
    method BackPage(va: nat, flags: Flags) returns (r: Backing, ghost g: nat)
      requires SpaceValid() && pml4 != 0 && InPool(va, 1)
      modifies this`freeHead, this`freeCount, this`mem, this`fl, this`owner, this`page, pfn
      ensures SpaceValid()
      // a frame for the page, and one for each table that is missing
      ensures r == NoFrame <==> old(fl) == []
      ensures r == Backed <==> |old(fl)| > Missing(old(mem), Root(), va)
      ensures r == Backed ==>
                |fl| == |old(fl)| - 1 - Missing(old(mem), Root(), va) && Added(Root(), old(mem), mem, Needs(va))
      ensures r == NoTable ==> old(fl) != [] && fl == [old(fl)[0]]
      ensures r == NoFrame ==> fl == [] && mem == old(mem) && owner == old(owner) && page == old(page)
      ensures r == NoTable ==> Grew(Root(), old(mem), old(owner), old(fl), mem, owner, fl) && page == old(page)
      ensures r == Backed ==> BackedPage(Root(), old(mem), old(owner), old(fl), mem, owner, fl, va, g)
    {
      hide Tree, PoolFlat, FreeList, Mapped, Grew, Pages, Apart, SameOwned, BackedPage, Missing, Added, Needs, Taken,
        Owned;
      ghost var m0, o0, f0, p0, root := mem, owner, fl, page, Root();
      var phys := TakeForPage(va);
      if phys == 0 {
        return NoFrame, 0;
      }
      g := phys / PAGE;
      ghost var m1, f1, db1 := mem, fl, pfn[..];
      SameMissing(root, m0, m1, va);
      ghost var pt;
      var res;
      res, pt := MapPage(va, phys, flags);
      ghost var m2, o2, f2, db2 := mem, owner, fl, pfn[..];
      FrameNumber(g);
      if res != 0 {
        BackFailed(root, m0, o0, f0, p0, reserved, m1, f1, db1, m2, o2, f2, db2, g, freeHead);
        OwnedFrame(db2, g);
        FreePhysical(phys);
        return NoTable, 0;
      }
      BackDone(root, m0, o0, f0, p0, reserved, m1, f1, db1, m2, o2, f2, db2, va, pt, g, flags);
      page := PagesWith(page, m1, o0, pt, I1(va), g);
      r := Backed;
    }

    /** The frame for a page (vmm.c:306). */
    method TakeForPage(va: nat) returns (phys: nat)
      requires SpaceValid() && pml4 != 0 && InPool(va, 1)
      modifies this`freeHead, this`freeCount, this`mem, this`fl, pfn
      ensures TablesValid()
      ensures old(fl) == [] ==> phys == 0 && fl == [] && mem == old(mem) && pfn[..] == old(pfn[..])
      ensures old(fl) != [] ==>
                var g := old(fl)[0];
                && phys == g * PAGE && 0 < g < WRAP_32 && fl == old(fl)[1..]
                && NoHuge(mem, Root(), va) && Added(Root(), old(mem), mem, {})
                && Taken(Root(), old(mem), owner, old(fl), page, reserved, mem, fl, pfn[..], g)
    {
      hide Tree, PoolFlat, FreeList, Pages, Apart, Added;
      ghost var m0, o0, f0, db0, root := mem, owner, fl, pfn[..], Root();
      ListedIsFree(db0, freeHead, freeCount, f0);
      phys := AllocPhysical();
      if phys == 0 {
        return;
      }
      TakeFrame(root, m0, o0, page, reserved, db0, f0);
      ZeroedTables(root, m0, o0, phys / PAGE);
      AddedAreFree(pfn[..], freeHead, freeCount, fl);
      PoolNoHuge(mem, root, owner, va);
    }

    /** The loop of vmm_alloc_pages (vmm.c:304-322), up to the page that cannot be backed:
        got lists the frames that back the pages before it. */
    method BackPages(base: nat, n: nat, flags: Flags) returns (i: nat, r: Backing, ghost got: seq<nat>)
      requires SpaceValid() && pml4 != 0 && InPool(base, n)
      modifies this`freeHead, this`freeCount, this`mem, this`fl, this`owner, this`page, pfn
      ensures SpaceValid() && i == |got|
      ensures r == Backed ==> i == n && |old(fl)| == |fl| + Demand(old(mem), Root(), base, n)
      ensures r != Backed ==> i < n && |fl| == (if r == NoFrame then 0 else 1)
      ensures r == NoFrame ==> |old(fl)| == Demand(old(mem), Root(), base, i)
      ensures r == NoTable ==> Demand(old(mem), Root(), base, i) < |old(fl)| < Demand(old(mem), Root(), base, i + 1)
      ensures RunBacked(Root(), old(mem), old(owner), old(fl), mem, owner, fl, base, got)
    {
      hide Vmm.SpaceValid, RunBacked, BackedPage, Grew, Added, RunNeeds, Needs, Missing, Demand;
      ghost var m0, o0, f0, root := mem, owner, fl, Root();
      i, r, got := 0, Backed, [];
      NothingBacked(root, m0, o0, f0, base);
      NothingAdded(root, m0, base);
      while i < n
        invariant i <= n && |got| == i && SpaceValid() && r == Backed
        invariant RunBacked(root, m0, o0, f0, mem, owner, fl, base, got)
        invariant Added(root, m0, mem, RunNeeds(base, i)) && |fl| + Demand(m0, root, base, i) == |f0|
      {
        ghost var m1, o1, f1 := mem, owner, fl;
        DemandNext(root, m0, m1, base, i);
        ghost var g;
        r, g := BackPage(PageAt(base, i), flags);
        if r != Backed {
          if r == NoFrame {
            GrewRefl(root, m1, o1, f1);
          }
          RunBackedGrew(root, m0, o0, f0, m1, o1, f1, mem, owner, fl, base, got);
          return;
        }
        MoreBacked(root, m0, o0, f0, m1, o1, f1, mem, owner, fl, base, got, g, n);
        AddedNext(root, m0, m1, mem, base, i);
        got := got + [g];
        i := i + 1;
      }
    }

    /** The roll-back of vmm_alloc_pages (vmm.c:308-313): the i pages backed so far are given
        back. */
    method TakeBack(base: nat, i: nat, ghost m0: Memory, ghost o0: map<nat, Path>, ghost f0: seq<nat>,
                    ghost got: seq<nat>)
      requires SpaceValid() && pml4 != 0 && InPool(base, i) && |got| == i && |fl| == 0
      requires RunBacked(Root(), m0, o0, f0, mem, owner, fl, base, got)
      modifies this`freeHead, this`freeCount, this`mem, this`fl, this`page, pfn
      ensures SpaceValid() && |fl| == i
      ensures RolledBack(Root(), m0, o0, f0, mem, owner, fl, base, got)
      ensures Unused(m0, Root(), base) ==> SameTranslations(Root(), m0, mem) && Unused(mem, Root(), base)
    {
      hide Vmm.SpaceValid, RunBacked, RolledBack, Cleared, Unused, SameTranslations;
      ghost var root, m1, o1, f1 := Root(), mem, owner, fl;
      ReleaseRun(base, i);
      ReleaseGivesBack(root, m0, o0, f0, m1, o1, f1, mem, fl, base, got);
      if Unused(m0, root, base) {
        RolledBackUnused(root, m0, o0, f0, mem, o1, fl, base, got);
      }
    }

    /** vmm_alloc_pages (vmm.c:297-325). out tells how it went, and got lists the frames
        that back the pages mapped so far, in order. */
    method AllocPages(n: nat, flags: Flags) returns (va: nat, ghost out: Outcome, ghost got: seq<nat>)
      requires Valid() && (pml4 != 0 && n <= freeCount ==> InPool(poolNext, n))
      modifies this`freeHead, this`freeCount, this`mem, this`fl, this`owner, this`page, this`poolNext, pfn
      ensures Valid()
      ensures va == (if out == Success then old(poolNext) else 0)
      ensures poolNext == (if out == Success then old(poolNext) + n * PAGE else old(poolNext))
      ensures out == Refused <==> n == 0 || pml4 == 0 || old(freeCount) < n
      ensures out == Refused ==> mem == old(mem) && owner == old(owner) && fl == old(fl) && page == old(page)
      // it succeeds exactly when there are frames for the pages and for the tables they lack
      ensures out == Success <==> n != 0 && pml4 != 0 && old(freeCount) >= old(Needed(n))
      ensures out == Success ==> freeCount == old(freeCount) - old(Needed(n))
      // n pages on n different frames that were free; nothing else is translated differently
      ensures out == Success ==>
                |got| == n && RunBacked(Root(), old(mem), old(owner), old(fl), mem, owner, fl, old(poolNext), got)
      // frames ran out just before a page: what was mapped is taken back, and only new tables stay allocated
      ensures out == RanOut <==> n != 0 && pml4 != 0 && n <= old(freeCount) < old(Needed(n)) && old(UsedUpBefore(n))
      ensures out == RanOut ==> |got| < n && old(freeCount) == old(Needed(|got|)) && freeCount == |got|
      ensures out == RanOut ==>
                RolledBack(Root(), old(mem), old(owner), old(fl), mem, owner, fl, old(poolNext), got)
      // frames ran out within the tables of a page: the pages mapped so far stay mapped
      ensures out == NoTables ==>
          |got| < n && old(Needed(|got|)) < old(freeCount) < old(Needed(|got| + 1)) && freeCount == 1
      ensures out == NoTables ==>
                RunBacked(Root(), old(mem), old(owner), old(fl), mem, owner, fl, old(poolNext), got)
      // the pool from poolNext on stays unused, but for a run abandoned half way
      ensures old(Abandons(n)) <==> out == NoTables && got != []
      ensures old(Clean()) ==> (Clean() <==> !old(Abandons(n)))
      ensures old(Clean()) && out == RanOut ==> SameTranslations(Root(), old(mem), mem)
    {
      hide Vmm.SpaceValid, RunBacked, RolledBack, Unused, Demand, UsedUp, StopsWithin, SameTranslations;
      va, out, got := 0, Refused, [];
      ghost var m0, o0, f0, root := mem, owner, fl, Root();
      var base := poolNext;
      Counted();
      NotAtAll(m0, root, base, n, freeCount);
      if n == 0 || pml4 == 0 {
        return;
      }
      if freeCount < n {
        return;
      }
      poolNext := poolNext + n * PAGE;
      var i, r;
      i, r, got := BackPages(base, n, flags);
      ghost var m1, o1, f1 := mem, owner, fl;
      Abandoned(m0, root, base, i, n, |f0|, r);
      if Unused(m0, root, base) {
        BackedUnused(root, m0, o0, f0, m1, o1, f1, base, got);
      }
      if r == NoFrame {
        TakeBack(base, i, m0, o0, f0, got);
        poolNext := base;
        out := RanOut;
      } else if r == NoTable {
        poolNext := base;
        out := NoTables;
      } else {
        va, out := base, Success;
      }
      Counted();
    }

    /** The counter is the length of the list. */
    lemma Counted()
      requires SpaceValid()
      ensures freeCount == |fl|
    {
    }

    /** The marking loops of pfn_database_init (vmm.c:104-106, 110-112, 117-119, 123-125). */
    method MarkFrames(lo: nat, hi: nat, state: PfnState)
      modifies pfn
      ensures forall f | 0 <= f < pfn.Length ::
                pfn[f] == if lo <= f < hi then old(pfn[f]).(state := state) else old(pfn[f])
    {
      var p := lo;
      while p < hi && p < pfn.Length
        invariant lo <= p
        invariant forall f | 0 <= f < pfn.Length ::
                    pfn[f] == if lo <= f < p && f < hi then old(pfn[f]).(state := state) else old(pfn[f])
      {
        pfn[p] := pfn[p].(state := state);
        p := p + 1;
      }
    }

    /** The loop over the memory map that finds the highest address (vmm.c:53-57). */
    method FindMaxPhys(ds: seq<Descriptor>) returns (m: nat)
      ensures m == MaxPhys(ds)
      ensures forall i | 0 <= i < |ds| :: EndOf(ds[i]) <= m
      ensures m == 0 || exists i :: 0 <= i < |ds| && EndOf(ds[i]) == m
    {
      m := 0;
      for i := 0 to |ds|
        invariant m == MaxPhys(ds[..i])
      {
        assert ds[..i + 1][..i] == ds[..i];
        if EndOf(ds[i]) > m {
          m := EndOf(ds[i]);
        }
      }
      assert ds[..|ds|] == ds;
      MaxPhysIs(ds);
    }

    /** The search for a region that can hold the database (vmm.c:69-77). */
    method FindDbBase(ds: seq<Descriptor>) returns (b: nat)
      ensures b == DbBase(ds, 0)
      ensures b == 0 <==> forall i | 0 <= i < |ds| :: !CanHoldDb(ds, ds[i])
      ensures b != 0 ==> exists i :: 0 <= i < |ds| && CanHoldDb(ds, ds[i]) && ds[i].start == b
                                     && forall j | 0 <= j < i :: !CanHoldDb(ds, ds[j])
    {
      DbBaseIs(ds, 0);
      var i := 0;
      while i < |ds|
        invariant i <= |ds| && DbBase(ds, 0) == DbBase(ds, i)
      {
        if CanHoldDb(ds, ds[i]) {
          return ds[i].start;
        }
        i := i + 1;
      }
      b := 0;
    }

    /** The loop that pushes the free frames (vmm.c:128-134). */
    method BuildFreeList()
      requires pfn.Length <= NONE && freeHead == NONE && freeCount == 0
      modifies this`freeHead, this`freeCount, pfn
      ensures ListBelow(pfn[..], freeHead, freeCount, pfn.Length)
      ensures forall f | 0 <= f < pfn.Length :: pfn[f].state == old(pfn[f].state)
    {
      NothingBelow(pfn[..]);
      hide ListBelow;
      if pfn.Length == 0 {
        return;
      }
      var p := 1;
      while p < pfn.Length
        invariant 1 <= p <= pfn.Length && ListBelow(pfn[..], freeHead, freeCount, p)
        invariant forall f | 0 <= f < pfn.Length :: pfn[f].state == old(pfn[f].state)
      {
        PushBelow(pfn[..], freeHead, freeCount, p);
        if pfn[p].state == Free {
          ghost var db := pfn[..];
          pfn[p] := pfn[p].(nextFree := freeHead);
          assert pfn[..] == db[p := db[p].(nextFree := freeHead)];
          freeHead := p;
          freeCount := freeCount + 1;
        }
        p := p + 1;
      }
    }

    /** All entries bad, then marked region by region (vmm.c:85-107). */
    method Classify(ds: seq<Descriptor>)
      requires pfn.Length == FrameCount(ds)
      modifies pfn
      ensures forall f | 0 <= f < pfn.Length :: pfn[f] == PfnEntry(NONE, MapState(ds, |ds|, pfn.Length, f), 0)
    {
      for i := 0 to pfn.Length
        invariant forall f | 0 <= f < i :: pfn[f] == PfnEntry(NONE, Bad, 0)
      {
        pfn[i] := PfnEntry(NONE, Bad, 0);
      }
      for i := 0 to |ds|
        invariant forall f | 0 <= f < pfn.Length :: pfn[f] == PfnEntry(NONE, MapState(ds, i, pfn.Length, f), 0)
      {
        MarkFrames(FirstFrame(ds[i]), LastFrame(ds[i], pfn.Length), StateOfKind(ds[i].kind));
      }
    }

    /** pfn_database_init (vmm.c:45-135), for a memory map of fewer than 2^32 frames. When no
        region can hold the database there is none, and no free frame. */
    method PfnDatabaseInit(ds: seq<Descriptor>, kernelBase: nat, kernelSize: nat)
      requires FrameCount(ds) <= NONE && FrameCount(ds) <= |mem| && WellSized(mem)
      modifies this`pfn, this`freeHead, this`freeCount, this`fl
      ensures FramesValid() && fresh(pfn)
      ensures DbBase(ds, 0) == 0 ==> fl == []
      ensures DbBase(ds, 0) != 0 ==>
                && pfn.Length == FrameCount(ds)
                && (forall f | 0 <= f < pfn.Length :: pfn[f].state == InitialState(ds, kernelBase, kernelSize, f))
    {
      hide MaxPhys, DbBase, MapState;
      var maxPhys := FindMaxPhys(ds);
      var count := maxPhys / PAGE;
      freeHead := NONE;
      freeCount := 0;
      fl := [];
      var dbPages := (count * 8 + PAGE - 1) / PAGE;
      var dbPhys := FindDbBase(ds);
      if dbPhys == 0 {
        pfn := new PfnEntry[0];
        return;
      }
      pfn := new PfnEntry[count];
      Classify(ds);
      MarkReserved(ds, kernelBase, kernelSize, dbPhys, dbPages);
      BuildFreeList();
      fl := FreeBelow(pfn[..], count);
    }

    /** Low memory, the kernel image and the database itself (vmm.c:109-125). */
    method MarkReserved(ds: seq<Descriptor>, kernelBase: nat, kernelSize: nat, dbPhys: nat, dbPages: nat)
      requires dbPhys == DbBase(ds, 0) && dbPages == DbPages(ds) && pfn.Length == FrameCount(ds)
      requires forall f | 0 <= f < pfn.Length :: pfn[f].state == MapState(ds, |ds|, FrameCount(ds), f)
      modifies pfn
      ensures forall f | 0 <= f < pfn.Length :: pfn[f].state == InitialState(ds, kernelBase, kernelSize, f)
    {
      hide MaxPhys, DbBase, MapState;
      MarkFrames(0, 256, Firmware);
      var k := kernelBase / PAGE % WRAP_32;
      MarkFrames(k, (k + (kernelSize + PAGE - 1) % WRAP_64 / PAGE % WRAP_32) % WRAP_32, Kernel);
      var d := dbPhys / PAGE % WRAP_32;
      MarkFrames(d, d + dbPages, Kernel);
    }

    /** vmm_init (vmm.c:279-292), given the tree the bootloader left in cr3: no 4 KB pages
        yet, and none of its frames free by the memory map. From then on every frame that
        is neither free nor a table is reserved. */
    method Init(ds: seq<Descriptor>, kernelBase: nat, kernelSize: nat, cr3: nat, ghost tree: map<nat, Path>)
      requires FrameCount(ds) <= NONE && FrameCount(ds) <= |mem|
      requires cr3 != 0 && cr3 % PAGE == 0 && Tree(mem, cr3 / PAGE, tree) && PoolFlat(mem, tree)
      requires forall f | f in tree ::
                 !tree[f].Pt? && (f < FrameCount(ds) ==> InitialState(ds, kernelBase, kernelSize, f) != Free)
      modifies this
      ensures Valid() && fresh(pfn)
      ensures pml4 == cr3 && poolNext == POOL_BASE && owner == tree && page == map[]
      ensures forall f: nat | f < pfn.Length :: f in fl || f in tree || f in reserved
      ensures Clean() <==> Unused(old(mem), cr3 / PAGE, POOL_BASE)
    {
      hide Tree, MaxPhys, DbBase, InitialState;
      TreeSized(mem, cr3 / PAGE, tree);
      PfnDatabaseInit(ds, kernelBase, kernelSize);
      pml4 := cr3;
      poolNext := POOL_BASE;
      owner := tree;
      page := map[];
      reserved := set f | 0 <= f < pfn.Length && pfn[f].state != Free && f !in tree;
      NoPagesYet(mem, tree, pfn[..], reserved);
      hide Apart, Pages, PoolFlat, FreeList;
    }
  }
}

/** Runs of single-frame allocations and frees from the initial frame database
    (kernel/mm/vmm.c:45-170): which frames can ever be handed out. */
module FrameRuns {
  import opened Paging
  import opened Frames
  import opened MemoryMap
  import opened VirtualMemory

  /** Allocate a frame, or give back what the allocation number k returned. */
  datatype FrameCall = Alloc | GiveBack(k: nat)

  function Allocs(calls: seq<FrameCall>): nat {
    if calls == [] then 0 else Allocs(calls[..|calls| - 1]) + if calls[|calls| - 1].Alloc? then 1 else 0
  }

  /** The allocations that were not given back. */
  function Open(calls: seq<FrameCall>): set<nat> {
    if calls == [] then {}
    else
      var before, c := calls[..|calls| - 1], calls[|calls| - 1];
      if c.Alloc? then Open(before) + {Allocs(before)} else Open(before) - {c.k}
  }

  /** Only what was allocated and not given back since is freed. */
  ghost predicate Legal(calls: seq<FrameCall>) {
    forall i {:trigger calls[i]} | 0 <= i < |calls| && calls[i].GiveBack? :: calls[i].k in Open(calls[..i])
  }

  lemma Push(calls: seq<FrameCall>, i: nat)
    requires i < |calls|
    ensures calls[..i + 1][..i] == calls[..i] && calls[..i + 1][i] == calls[i]
    ensures Allocs(calls[..i + 1]) == Allocs(calls[..i]) + if calls[i].Alloc? then 1 else 0
    ensures Open(calls[..i + 1]) == if calls[i].Alloc? then Open(calls[..i]) + {Allocs(calls[..i])}
        else Open(calls[..i]) - {calls[i].k}
  {
    assert calls[..i + 1][..i] == calls[..i];
  }

  lemma {:induction false} OpenBelow(calls: seq<FrameCall>)
    ensures forall k | k in Open(calls) :: k < Allocs(calls)
  {
    if calls != [] {
      OpenBelow(calls[..|calls| - 1]);
    }
  }

  // ---------------------------------------------------------------- who has which frame

  /** given[k] is what allocation k returned. The frames of the open allocations are
      different from each other and from the free ones, are allocated once each, and together
      with the free ones are the frames of start. */
  ghost predicate Shared(start: set<nat>, db: seq<PfnEntry>, fl: seq<nat>, given: seq<nat>, open: set<nat>) {
    && (forall k | k in open :: k < |given|)
    && (forall k {:trigger Held(db, fl, given, k)} | k in open && given[k] != 0 :: Held(db, fl, given, k))
    && (forall k, l | k in open && l in open && k != l && given[k] != 0 :: given[k] != given[l])
    && (forall f: nat {:trigger f in start} :: f in start <==> f in fl || Holder(given, open, f))
    && (forall k {:trigger FromStart(start, given, k)} | 0 <= k < |given| :: FromStart(start, given, k))
  }

  /** Some open allocation has frame f. */
  ghost predicate Holder(given: seq<nat>, open: set<nat>, f: nat) {
    exists k: nat :: k in open && k < |given| && given[k] == f * PAGE && f != 0
  }

  ghost predicate Held(db: seq<PfnEntry>, fl: seq<nat>, given: seq<nat>, k: nat)
    requires k < |given|
  {
    var f := given[k] / PAGE;
    given[k] % PAGE == 0 && 0 < f < |db| && f !in fl && db[f].state == Kernel && db[f].refCount == 1
  }

  ghost predicate FromStart(start: set<nat>, given: seq<nat>, k: nat)
    requires k < |given|
  {
    given[k] == 0 || (given[k] % PAGE == 0 && given[k] / PAGE in start)
  }

  lemma Took(start: set<nat>, db: seq<PfnEntry>, fl: seq<nat>, given: seq<nat>, open: set<nat>, f: nat)
    requires Shared(start, db, fl, given, open) && fl != [] && f == fl[0] && f !in fl[1..] && 0 < f < |db|
    requires forall g | g in fl :: g < |db| && db[g].state == Free
    ensures Shared(start, db[f := PfnEntry(NONE, Kernel, 1)], fl[1..], given + [f * PAGE], open + {|given|})
  {
    var db', fl', given', open' := db[f := PfnEntry(NONE, Kernel, 1)], fl[1..], given + [f * PAGE], open + {|given|};
    assert fl == [f] + fl';
    assert f in fl && f in start;
    forall k | k in open' && given'[k] != 0 ensures Held(db', fl', given', k) {
      if k != |given| {
        assert Held(db, fl, given, k);
      }
    }
    forall k, l | k in open' && l in open' && k != l && given'[k] != 0 ensures given'[k] != given'[l] {
      if k == |given| && given[l] != 0 {
        assert Held(db, fl, given, l);
      } else if l == |given| {
        assert Held(db, fl, given, k);
      }
    }
    forall g: nat ensures g in start <==> g in fl' || Holder(given', open', g) {
      if Holder(given, open, g) {
        var k: nat :| k in open && k < |given| && given[k] == g * PAGE && g != 0;
        assert given'[k] == given[k];
      }
      if Holder(given', open', g) {
        var k: nat :| k in open' && k < |given'| && given'[k] == g * PAGE && g != 0;
        assert k < |given| ==> given[k] == given'[k];
      }
      assert given'[|given|] == f * PAGE;
    }
    forall k | 0 <= k < |given'| ensures FromStart(start, given', k) {
      if k < |given| {
        assert FromStart(start, given, k);
      }
    }
  }

  lemma TookNone(start: set<nat>, db: seq<PfnEntry>, given: seq<nat>, open: set<nat>)
    requires Shared(start, db, [], given, open)
    ensures Shared(start, db, [], given + [0], open + {|given|})
  {
    var given', open' := given + [0], open + {|given|};
    forall k | k in open' && given'[k] != 0 ensures Held(db, [], given', k) {
      assert Held(db, [], given, k);
    }
    forall g: nat ensures g in start <==> g in [] || Holder(given', open', g) {
      if Holder(given, open, g) {
        var k: nat :| k in open && k < |given| && given[k] == g * PAGE && g != 0;
        assert given'[k] == given[k];
      }
      if Holder(given', open', g) {
        var k: nat :| k in open' && k < |given'| && given'[k] == g * PAGE && g != 0;
        assert k < |given| && given[k] == given'[k];
      }
    }
    forall k | 0 <= k < |given'| ensures FromStart(start, given', k) {
      if k < |given| {
        assert FromStart(start, given, k);
      }
    }
  }

  lemma GaveBack(start: set<nat>, db: seq<PfnEntry>, fl: seq<nat>, given: seq<nat>, open: set<nat>, k: nat, head: nat)
    requires Shared(start, db, fl, given, open) && k in open && given[k] != 0
    ensures var f := given[k] / PAGE;
      0 < f < |db| && db[f].state != Free && db[f].refCount == 1
      && Shared(start, db[f := PfnEntry(head, Free, 0)], [f] + fl, given, open - {k})
  {
    var f := given[k] / PAGE;
    assert Held(db, fl, given, k) && FromStart(start, given, k);
    var db', fl', open' := db[f := PfnEntry(head, Free, 0)], [f] + fl, open - {k};
    forall l | l in open' && given[l] != 0 ensures Held(db', fl', given, l) {
      assert Held(db, fl, given, l);
    }
    forall g: nat ensures g in start <==> g in fl' || Holder(given, open', g) {
      if Holder(given, open, g) && g != f {
        var l: nat :| l in open && l < |given| && given[l] == g * PAGE && g != 0;
        assert l in open';
      }
    }
  }

  lemma GaveNothing(start: set<nat>, db: seq<PfnEntry>, fl: seq<nat>, given: seq<nat>, open: set<nat>, k: nat)
    requires Shared(start, db, fl, given, open) && k in open && given[k] == 0
    ensures Shared(start, db, fl, given, open - {k})
  {
    forall g: nat ensures g in start <==> g in fl || Holder(given, open - {k}, g) {
      if Holder(given, open, g) {
        var l: nat :| l in open && l < |given| && given[l] == g * PAGE && g != 0;
        assert l in open - {k};
      }
    }
  }

  // ---------------------------------------------------------------- runs

  lemma NoneOpen(db: seq<PfnEntry>, fl: seq<nat>, start: set<nat>)
    requires forall f: nat :: f in start <==> f in fl
    ensures Shared(start, db, fl, [], {})
  {
    forall f: nat ensures !Holder([], {}, f) {
    }
  }

  lemma FreeFacts(db: seq<PfnEntry>, head: nat, count: nat, fl: seq<nat>)
    requires FreeList(db, head, count, fl)
    ensures |db| <= NONE && (forall f | f in fl :: f < |db| && db[f].state == Free)
        && (|db| > 0 ==> db[0].state != Free)
    ensures fl != [] ==> fl[0] !in fl[1..] && 0 < fl[0] < |db|
  {
    assert fl != [] ==> fl[0] in fl;
    assert |db| > 0 && db[0].state == Free ==> 0 in fl;
  }

  /** Every frame of start is with an open allocation. */
  ghost predicate AllHeld(start: set<nat>, given: seq<nat>, open: set<nat>) {
    forall f: nat {:trigger Holder(given, open, f)} | f in start :: Holder(given, open, f)
  }

  lemma NoneLeft(start: set<nat>, db: seq<PfnEntry>, fl: seq<nat>, given: seq<nat>, open: set<nat>)
    requires Shared(start, db, fl, given, open)
    ensures fl == [] <==> AllHeld(start, given, open)
  {
    if fl != [] {
      assert fl[0] in fl && fl[0] in start;
      HeldNotFree(start, db, fl, given, open, fl[0]);
    }
  }

  lemma HeldNotFree(start: set<nat>, db: seq<PfnEntry>, fl: seq<nat>, given: seq<nat>, open: set<nat>, f: nat)
    requires Shared(start, db, fl, given, open) && f in fl
    ensures !Holder(given, open, f)
  {
    forall k | k in open && given[k] != 0 ensures given[k] / PAGE !in fl && given[k] % PAGE == 0 {
      assert Held(db, fl, given, k);
    }
  }

  /** One call. An allocation returns 0 exactly when every frame is held. */
  method Perform(v: Vmm, c: FrameCall, given: seq<nat>, ghost open: set<nat>, ghost start: set<nat>)
    returns (given': seq<nat>)
    requires v.FramesValid() && Shared(start, v.pfn[..], v.fl, given, open) && (c.GiveBack? ==> c.k in open)
    modifies v`freeHead, v`freeCount, v`mem, v`fl, v.pfn
    ensures v.FramesValid()
    ensures if c.Alloc? then
              && |given'| == |given| + 1 && given' == given + [given'[|given|]]
              && (given'[|given|] == 0 <==> AllHeld(start, given, open))
              && Shared(start, v.pfn[..], v.fl, given', open + {|given|})
            else given' == given && Shared(start, v.pfn[..], v.fl, given', open - {c.k})
  {
    ghost var db, fl, head := v.pfn[..], v.fl, v.freeHead;
    FreeFacts(db, v.freeHead, v.freeCount, fl);
    NoneLeft(start, db, fl, given, open);
    hide AllHeld;
    match c
    case Alloc =>
      if fl != [] {
        Took(start, db, fl, given, open, fl[0]);
      } else {
        TookNone(start, db, given, open);
      }
      hide Shared, FreeList;
      var pa := v.AllocPhysical();
      given' := given + [pa];
    case GiveBack(k) =>
      assert k < |given|;
      if given[k] != 0 {
        GaveBack(start, db, fl, given, open, k, head);
        assert Held(db, fl, given, k);
      } else {
        GaveNothing(start, db, fl, given, open, k);
      }
      hide Shared, FreeList;
      v.FreePhysical(given[k]);
      given' := given;
  }

  /** Call i, if it is an allocation, returned 0 exactly when every frame of start was held
      then, by the results so far. */
  ghost predicate ZeroIff(start: set<nat>, calls: seq<FrameCall>, given: seq<nat>, i: nat)
    requires i < |calls|
  {
    var k := Allocs(calls[..i]);
    calls[i].Alloc? ==> k < |given| && (given[k] == 0 <==> AllHeld(start, given[..k], Open(calls[..i])))
  }

  lemma ZeroIffKept(start: set<nat>, calls: seq<FrameCall>, given: seq<nat>, pa: nat, i: nat)
    requires i < |calls| && ZeroIff(start, calls, given, i)
    ensures ZeroIff(start, calls, given + [pa], i)
  {
    hide AllHeld;
    var k := Allocs(calls[..i]);
    assert k < |given| ==> (given + [pa])[..k] == given[..k];
  }

  /** Over every legal run the frames handed out and not given back, and the free frames,
      are disjoint and together are the frames that were free at first, so that no frame has
      two holders and no other frame is ever handed out; and an allocation fails only when
      all of them are handed out. */
  method Run(v: Vmm, calls: seq<FrameCall>) returns (given: seq<nat>)
    requires v.FramesValid() && Legal(calls)
    modifies v`freeHead, v`freeCount, v`mem, v`fl, v.pfn
    ensures v.FramesValid() && |given| == Allocs(calls)
    ensures Shared(Elements(old(v.fl)), v.pfn[..], v.fl, given, Open(calls))
    ensures forall i: nat | i < |calls| :: ZeroIff(Elements(old(v.fl)), calls, given, i)
  {
    ghost var start := Elements(v.fl);
    given := [];
    NoneOpen(v.pfn[..], v.fl, start);
    hide Shared, AllHeld, Vmm.FramesValid;
    for i := 0 to |calls|
      invariant v.FramesValid() && v.pfn == old(v.pfn) && |given| == Allocs(calls[..i])
      invariant Shared(start, v.pfn[..], v.fl, given, Open(calls[..i]))
      invariant forall j: nat | j < i :: ZeroIff(start, calls, given, j)
    {
      Push(calls, i);
      ghost var before := given;
      given := Perform(v, calls[i], given, Open(calls[..i]), start);
      assert calls[i].Alloc? ==> given[..|before|] == before;
      ghost var after := given;
      forall j: nat | j < i ensures ZeroIff(start, calls, after, j) {
        if calls[i].Alloc? {
          ZeroIffKept(start, calls, before, after[|before|], j);
        }
      }
    }
    assert calls[..|calls|] == calls;
  }

  /** The frames that initialisation leaves free. */
  ghost function FreeAtFirst(ds: seq<Descriptor>, kernelBase: nat, kernelSize: nat): set<nat> {
    set f | 0 <= f < FrameCount(ds) && DbBase(ds, 0) != 0 && InitialState(ds, kernelBase, kernelSize, f) == Free
  }

  /** From initialisation on, on any memory map, allocations hand out just these frames, and
      none with a reserved byte in it. */
  method RunFromBoot(v: Vmm, ds: seq<Descriptor>, kernelBase: nat, kernelSize: nat, calls: seq<FrameCall>)
    returns (given: seq<nat>)
    requires FrameCount(ds) <= NONE && FrameCount(ds) <= |v.mem| && WellSized(v.mem) && Legal(calls)
    requires kernelBase + kernelSize < 0x1000_0000_0000 - PAGE && DbBase(ds, 0) + DbPages(ds) * PAGE < 0x1000_0000_0000
    modifies v`pfn, v`freeHead, v`freeCount, v`fl, v`mem
    ensures v.FramesValid() && |given| == Allocs(calls)
    ensures Shared(FreeAtFirst(ds, kernelBase, kernelSize), v.pfn[..], v.fl, given, Open(calls))
    ensures forall i: nat | i < |calls| :: ZeroIff(FreeAtFirst(ds, kernelBase, kernelSize), calls, given, i)
    ensures forall k: nat, a: nat | k < |given| && given[k] != 0 && IsReserved(ds, kernelBase, kernelSize, a) ::
        a / PAGE != given[k] / PAGE
  {
    hide InitialState, FrameCount, DbPages, DbBase, IsReserved;
    v.PfnDatabaseInit(ds, kernelBase, kernelSize);
    ghost var start := FreeAtFirst(ds, kernelBase, kernelSize);
    ListIsFreeAtFirst(v.pfn[..], v.freeHead, v.freeCount, v.fl, ds, kernelBase, kernelSize);
    given := Run(v, calls);
    forall k: nat, a: nat | k < |given| && given[k] != 0 && IsReserved(ds, kernelBase, kernelSize, a)
      ensures a / PAGE != given[k] / PAGE
    {
      assert FromStart(start, given, k);
      hide Shared, ZeroIff;
      ReservedNotFree(ds, kernelBase, kernelSize, a);
    }
  }

  lemma ListIsFreeAtFirst(db: seq<PfnEntry>, head: nat, count: nat, fl: seq<nat>, ds: seq<Descriptor>, kernelBase: nat,
                          kernelSize: nat)
    requires FreeList(db, head, count, fl) && (DbBase(ds, 0) == 0 ==> fl == [])
    requires DbBase(ds, 0) != 0 ==>
               |db| == FrameCount(ds) && forall f | 0 <= f < |db| ::
                 db[f].state == InitialState(ds, kernelBase, kernelSize, f)
    ensures Elements(fl) == FreeAtFirst(ds, kernelBase, kernelSize)
  {
    hide InitialState, FrameCount, DbBase;
    assert forall f: nat :: f in Elements(fl) <==> f in FreeAtFirst(ds, kernelBase, kernelSize);
  }
}

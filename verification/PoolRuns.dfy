/** Runs of vmm_alloc_pages and vmm_free_pages (kernel/mm/vmm.c:297-338). */
module PoolRuns {
  import opened Paging
  import opened Spaces
  import opened Tables
  import opened VirtualMemory

  datatype PoolCall = AllocRun(n: nat, flags: Flags) | FreeRun(va: nat, n: nat)

  /** What the calls work on: memory, the tables in it, the free frames, and where the next
      run starts. */
  datatype Space = Space(mem: Memory, owner: map<nat, Path>, fl: seq<nat>, next: nat)

  /** The pages all allocations ask for. */
  function Asked(calls: seq<PoolCall>): nat {
    if calls == [] then 0 else Asked(calls[..|calls| - 1]) + if calls[|calls| - 1].AllocRun? then calls[|calls| - 1].n
      else 0
  }

  lemma AskedNext(calls: seq<PoolCall>, i: nat)
    requires i < |calls|
    ensures Asked(calls[..i + 1]) == Asked(calls[..i]) + (if calls[i].AllocRun? then calls[i].n else 0)
    ensures Asked(calls[..i + 1]) <= Asked(calls)
  {
    assert calls[..i + 1][..i] == calls[..i];
    AskedRises(calls, i + 1);
  }

  lemma {:induction false} AskedRises(calls: seq<PoolCall>, i: nat)
    requires i <= |calls|
    ensures Asked(calls[..i]) <= Asked(calls)
  {
    if i < |calls| {
      assert calls[..|calls| - 1][..i] == calls[..i];
      AskedRises(calls[..|calls| - 1], i);
    } else {
      assert calls[..i] == calls;
    }
  }

  // ---------------------------------------------------------------- one call

  /** All n pages are backed. */
  ghost predicate BackedAll(root: nat, s: Space, s': Space, n: nat) {
    exists got :: |got| == n && RunBacked(root, s.mem, s.owner, s.fl, s'.mem, s'.owner, s'.fl, s.next, got)
  }

  /** As many pages as the frames sufficed for were backed and taken back. */
  ghost predicate TookBack(root: nat, s: Space, s': Space, n: nat) {
    exists got :: |got| < n && |s.fl| == Demand(s.mem, root, s.next, |got|) && |s'.fl| == |got|
                  && RolledBack(root, s.mem, s.owner, s.fl, s'.mem, s'.owner, s'.fl, s.next, got)
  }

  /** The pages before the one whose tables could not be made stay mapped. */
  ghost predicate LeftMapped(root: nat, s: Space, s': Space, n: nat) {
    exists got :: |got| < n && Demand(s.mem, root, s.next, |got|) < |s.fl| < Demand(s.mem, root, s.next, |got| + 1)
      && |s'.fl| == 1
                  && RunBacked(root, s.mem, s.owner, s.fl, s'.mem, s'.owner, s'.fl, s.next, got)
  }

  /** The call is an allocation that goes through. */
  ghost predicate Succeeds(root: nat, s: Space, c: PoolCall) {
    c.AllocRun? && c.n > 0 && |s.fl| >= Demand(s.mem, root, s.next, c.n)
  }

  /** The call is an allocation that is rolled back. */
  ghost predicate RunsOut(root: nat, s: Space, c: PoolCall) {
    && c.AllocRun? && 0 < c.n <= |s.fl| < Demand(s.mem, root, s.next, c.n)
    && UsedUp(s.mem, root, s.next, c.n, |s.fl|)
  }

  /** The call is an allocation that stops after some pages and leaves them mapped. */
  ghost predicate IsAbandoned(root: nat, s: Space, c: PoolCall) {
    c.AllocRun? && StopsWithin(s.mem, root, s.next, c.n, |s.fl|)
  }

  /** What a call makes of the space, and what it returns. */
  ghost predicate Performed(root: nat, s: Space, c: PoolCall, s': Space, va: nat) {
    match c
    case AllocRun(n, _) =>
      if n == 0 || |s.fl| < n then s' == s && va == 0
      else if Succeeds(root, s, c) then
        && va == s.next && s'.next == s.next + n * PAGE && |s'.fl| == |s.fl| - Demand(s.mem, root, s.next, n)
        && BackedAll(root, s, s', n)
      else if RunsOut(root, s, c) then va == 0 && s'.next == s.next && TookBack(root, s, s', n)
      else va == 0 && s'.next == s.next && LeftMapped(root, s, s', n)
    case FreeRun(at, n) =>
      if at == 0 || n == 0 then s' == s && va == 0
      else
        && va == 0 && s'.owner == s.owner && s'.next == s.next
        && Cleared(root, s.mem, s'.mem, s.owner, at, n) && s'.fl == FreedRun(s.mem, root, at, n) + s.fl
  }

  /** The same before vmm_init, when no call does anything. */
  ghost predicate PerformedIf(root: nat, live: bool, s: Space, c: PoolCall, s': Space, va: nat) {
    if live then Performed(root, s, c, s', va) else s' == s && va == 0
  }

  ghost predicate StepAt(root: nat, live: bool, calls: seq<PoolCall>, trace: seq<Space>, vas: seq<nat>, i: nat)
    requires i < |calls| == |vas| && |trace| == |calls| + 1
  {
    PerformedIf(root, live, trace[i], calls[i], trace[i + 1], vas[i])
  }

  /** trace has the space before each call and at the end, and vas what each call returned. */
  ghost predicate Traced(root: nat, live: bool, calls: seq<PoolCall>, trace: seq<Space>, vas: seq<nat>) {
    && |trace| == |calls| + 1 && |vas| == |calls|
    && forall i: nat {:trigger StepAt(root, live, calls, trace, vas, i)} | i < |calls| ::
      StepAt(root, live, calls, trace, vas, i)
  }

  lemma TracedNext(root: nat, live: bool, calls: seq<PoolCall>, i: nat, trace: seq<Space>, vas: seq<nat>, s: Space,
                   va: nat)
    requires i < |calls| && Traced(root, live, calls[..i], trace, vas)
        && PerformedIf(root, live, trace[i], calls[i], s, va)
    ensures Traced(root, live, calls[..i + 1], trace + [s], vas + [va])
  {
    hide PerformedIf;
    var done, trace', vas' := calls[..i + 1], trace + [s], vas + [va];
    forall j: nat | j < |done| ensures StepAt(root, live, done, trace', vas', j) {
      if j < i {
        assert StepAt(root, live, calls[..i], trace, vas, j);
      }
    }
  }

  // ---------------------------------------------------------------- runs

  ghost function Now(v: Vmm): Space
    reads v
  {
    Space(v.mem, v.owner, v.fl, v.poolNext)
  }

  lemma AllocPerformed(root: nat, s: Space, n: nat, flags: Flags, s': Space, va: nat, out: Outcome, got: seq<nat>)
    requires out == Refused <==> n == 0 || |s.fl| < n
    requires out == Success <==> n != 0 && |s.fl| >= Demand(s.mem, root, s.next, n)
    requires out == RanOut <==>
        n != 0 && n <= |s.fl| < Demand(s.mem, root, s.next, n) && UsedUp(s.mem, root, s.next, n, |s.fl|)
    requires va == (if out == Success then s.next else 0)
        && s'.next == (if out == Success then s.next + n * PAGE else s.next)
    requires out == Refused ==> s' == s
    requires out == Success ==> |s'.fl| == |s.fl| - Demand(s.mem, root, s.next, n) && |got| == n
    requires out == RanOut ==> |got| < n && |s.fl| == Demand(s.mem, root, s.next, |got|) && |s'.fl| == |got|
                               && RolledBack(root, s.mem, s.owner, s.fl, s'.mem, s'.owner, s'.fl, s.next, got)
    requires out == NoTables ==> |got| < n && |s'.fl| == 1
                                 && Demand(s.mem, root, s.next, |got|) < |s.fl| < Demand(s.mem, root, s.next, |got| + 1)
    requires out == Success || out == NoTables ==>
        RunBacked(root, s.mem, s.owner, s.fl, s'.mem, s'.owner, s'.fl, s.next, got)
    ensures Performed(root, s, AllocRun(n, flags), s', va)
  {
    hide RunBacked, RolledBack, UsedUp, Demand;
  }

  /** One call. */
  method Perform(v: Vmm, c: PoolCall) returns (va: nat)
    requires v.Valid() && (c.AllocRun? ==> InPool(v.poolNext, c.n)) && (c.FreeRun? ==> InPool(c.va, c.n))
    modifies v`freeHead, v`freeCount, v`mem, v`fl, v`owner, v`page, v`poolNext, v.pfn
    ensures v.Valid() && v.poolNext <= old(v.poolNext) + if c.AllocRun? then c.n * PAGE else 0
    ensures PerformedIf(v.Root(), v.pml4 != 0, old(Now(v)), c, Now(v), va)
  {
    hide Vmm.SpaceValid, Vmm.Clean, Vmm.Abandons, RunBacked, RolledBack, Cleared, SameTranslations, Demand, UsedUp;
    ghost var s := Now(v);
    v.Counted();
    match c
    case AllocRun(n, flags) =>
      ghost var out, got;
      va, out, got := v.AllocPages(n, flags);
      v.Counted();
      if v.pml4 != 0 {
        AllocPerformed(v.Root(), s, n, flags, Now(v), va, out, got);
      }
    case FreeRun(at, n) =>
      v.FreePages(at, n);
      va := 0;
  }

  /** Any calls, one after the other. */
  method Run(v: Vmm, calls: seq<PoolCall>) returns (vas: seq<nat>, ghost trace: seq<Space>)
    requires v.Valid() && v.poolNext + Asked(calls) * PAGE <= POOL_LIMIT
    requires forall i {:trigger calls[i]} | 0 <= i < |calls| && calls[i].FreeRun? :: InPool(calls[i].va, calls[i].n)
    modifies v`freeHead, v`freeCount, v`mem, v`fl, v`owner, v`page, v`poolNext, v.pfn
    ensures v.Valid()
    ensures Traced(v.Root(), v.pml4 != 0, calls, trace, vas)
    ensures trace[0] == old(Now(v)) && trace[|calls|] == Now(v)
  {
    hide Vmm.SpaceValid, PerformedIf;
    vas, trace := [], [Now(v)];
    for i := 0 to |calls|
      invariant v.Valid() && v.pfn == old(v.pfn) && v.poolNext <= old(v.poolNext) + Asked(calls[..i]) * PAGE
      invariant Traced(v.Root(), v.pml4 != 0, calls[..i], trace, vas) && trace[0] == old(Now(v)) && trace[i] == Now(v)
    {
      AskedNext(calls, i);
      var va := Perform(v, calls[i]);
      TracedNext(v.Root(), v.pml4 != 0, calls, i, trace, vas, Now(v), va);
      vas, trace := vas + [va], trace + [Now(v)];
    }
    assert calls[..|calls|] == calls;
  }

  // ---------------------------------------------------------------- what holds over runs

  /** Nothing is translated in the pool from the next run on. */
  ghost predicate Ahead(root: nat, s: Space) {
    Unused(s.mem, root, s.next)
  }

  /** The pool has room for what the call asks for. */
  predicate HasRoom(s: Space, c: PoolCall) {
    c.AllocRun? ==> InPool(s.next, c.n)
  }

  /** A call leaves the pool ahead unused exactly if it is not an allocation that is
      abandoned; and an allocation that is rolled back leaves every translation. */
  lemma AheadIff(root: nat, s: Space, c: PoolCall, s': Space, va: nat)
    requires Performed(root, s, c, s', va) && Ahead(root, s) && HasRoom(s, c)
    ensures Ahead(root, s') <==> !IsAbandoned(root, s, c)
    ensures RunsOut(root, s, c) ==> SameTranslations(root, s.mem, s'.mem)
  {
    hide RunBacked, RolledBack, Cleared, Unused, Demand, UsedUp, SameTranslations;
    match c
    case AllocRun(n, _) =>
      NotAtAll(s.mem, root, s.next, n, |s.fl|);
      if n == 0 || |s.fl| < n {
      } else if Succeeds(root, s, c) {
        var got :| |got| == n && RunBacked(root, s.mem, s.owner, s.fl, s'.mem, s'.owner, s'.fl, s.next, got);
        BackedUnused(root, s.mem, s.owner, s.fl, s'.mem, s'.owner, s'.fl, s.next, got);
      } else if RunsOut(root, s, c) {
        var got :| |got| < n && RolledBack(root, s.mem, s.owner, s.fl, s'.mem, s'.owner, s'.fl, s.next, got);
        RolledBackUnused(root, s.mem, s.owner, s.fl, s'.mem, s'.owner, s'.fl, s.next, got);
      } else {
        LeftIff(root, s, s', n);
      }
    case FreeRun(at, n) =>
      if at != 0 && n != 0 {
        ClearedUnused(root, s.mem, s'.mem, s.owner, at, n, s.next);
      }
  }

  lemma LeftIff(root: nat, s: Space, s': Space, n: nat)
    requires LeftMapped(root, s, s', n) && s'.next == s.next && Ahead(root, s) && n <= |s.fl| && InPool(s.next, n)
    ensures Ahead(root, s') <==> !StopsWithin(s.mem, root, s.next, n, |s.fl|)
  {
    hide RunBacked, Unused, Demand, UsedUp, StopsWithin;
    var got :| |got| < n && Demand(s.mem, root, s.next, |got|) < |s.fl| < Demand(s.mem, root, s.next, |got| + 1)
               && RunBacked(root, s.mem, s.owner, s.fl, s'.mem, s'.owner, s'.fl, s.next, got);
    Tables.Abandoned(s.mem, root, s.next, |got|, n, |s.fl|, NoTable);
    BackedUnused(root, s.mem, s.owner, s.fl, s'.mem, s'.owner, s'.fl, s.next, got);
  }

  lemma NextRises(root: nat, s: Space, c: PoolCall, s': Space, va: nat)
    requires Performed(root, s, c, s', va)
    ensures s'.next == s.next || (c.AllocRun? && s'.next == s.next + c.n * PAGE)
  {
  }

  /** Where the next run starts, over a run of calls. */
  lemma {:induction false} NextBelow(root: nat, calls: seq<PoolCall>, trace: seq<Space>, vas: seq<nat>, i: nat)
    requires Traced(root, true, calls, trace, vas) && i <= |calls| && trace[0].next % PAGE == 0
    ensures trace[i].next % PAGE == 0
    ensures trace[0].next <= trace[i].next <= trace[0].next + Asked(calls[..i]) * PAGE
  {
    hide Performed;
    if i > 0 {
      NextBelow(root, calls, trace, vas, i - 1);
      AskedNext(calls, i - 1);
      assert StepAt(root, true, calls, trace, vas, i - 1);
      NextRises(root, trace[i - 1], calls[i - 1], trace[i], vas[i - 1]);
    } else {
      assert Asked(calls[..0]) == 0;
    }
  }

  /** Over every run of calls in which no allocation is abandoned, the pool ahead stays
      unused, and each allocation that runs out of frames leaves every translation as it
      was. */
  lemma {:induction false} RunRestores(root: nat, calls: seq<PoolCall>, trace: seq<Space>, vas: seq<nat>, i: nat)
    requires Traced(root, true, calls, trace, vas) && Ahead(root, trace[0]) && i <= |calls|
    requires InPool(trace[0].next, Asked(calls))
    requires forall j {:trigger calls[j]} | 0 <= j < i :: !IsAbandoned(root, trace[j], calls[j])
    ensures Ahead(root, trace[i])
    ensures forall j {:trigger calls[j]} | 0 <= j < i && RunsOut(root, trace[j], calls[j]) ::
              SameTranslations(root, trace[j].mem, trace[j + 1].mem)
  {
    hide Performed, Ahead, IsAbandoned, RunsOut, SameTranslations;
    if i > 0 {
      RunRestores(root, calls, trace, vas, i - 1);
      NextBelow(root, calls, trace, vas, i - 1);
      AskedNext(calls, i - 1);
      assert StepAt(root, true, calls, trace, vas, i - 1);
      AheadIff(root, trace[i - 1], calls[i - 1], trace[i], vas[i - 1]);
    }
  }
}

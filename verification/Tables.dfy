/** Which page tables exist, how many a run of pages still needs, and so how many frames
    vmm_alloc_pages takes (kernel/mm/vmm.c:181-230, 297-325). */
module Tables {
  import opened Basics
  import opened Paging
  import opened Spaces

  // ---------------------------------------------------------------- tables in memory

  /** The table behind slot i of the table t at path q. */
  function Follow(mem: Memory, q: Path, t: Option<nat>, i: nat): Option<nat> {
    if t.Some? && Points(q, Get(mem, t.value, i)) then Some(Get(mem, t.value, i).frame) else None
  }

  /** The table at path p, if the walk from the root finds one there. */
  function TableOf(mem: Memory, root: nat, p: Path): Option<nat> {
    match p
    case Pml4 => Some(root)
    case Pdpt(i4) => Follow(mem, Pml4, Some(root), i4)
    case Pd(i4, i3) => Follow(mem, Pdpt(i4), Follow(mem, Pml4, Some(root), i4), i3)
    case Pt(i4, i3, i2) => Follow(mem, Pd(i4, i3), Follow(mem, Pdpt(i4), Follow(mem, Pml4, Some(root), i4), i3), i2)
  }

  predicate Has(mem: Memory, root: nat, p: Path) {
    TableOf(mem, root, p).Some?
  }

  lemma {:induction false} TableOwned(mem: Memory, root: nat, owner: map<nat, Path>, p: Path)
    requires Tree(mem, root, owner)
    ensures Has(mem, root, p) ==> PointsTo(owner, TableOf(mem, root, p).value, p)
  {
    match p
    case Pml4 =>
    case Pdpt(i4) => FollowOwned(mem, root, owner, Pml4, i4);
    case Pd(i4, i3) =>
      FollowOwned(mem, root, owner, Pml4, i4);
      FollowOwned(mem, root, owner, Pdpt(i4), i3);
    case Pt(i4, i3, i2) =>
      FollowOwned(mem, root, owner, Pml4, i4);
      FollowOwned(mem, root, owner, Pdpt(i4), i3);
      FollowOwned(mem, root, owner, Pd(i4, i3), i2);
  }

  lemma FollowOwned(mem: Memory, root: nat, owner: map<nat, Path>, q: Path, i: nat)
    requires Tree(mem, root, owner) && !q.Pt? && (Has(mem, root, q) ==> PointsTo(owner, TableOf(mem, root, q).value, q))
    ensures Has(mem, root, Sub(q, i)) ==> PointsTo(owner, TableOf(mem, root, Sub(q, i)).value, Sub(q, i))
    ensures TableOf(mem, root, Sub(q, i)) == Follow(mem, q, TableOf(mem, root, q), i)
  {
    if Has(mem, root, Sub(q, i)) {
      var f := TableOf(mem, root, q).value;
      assert i < ENTRIES;
      assert Points(owner[f], Get(mem, f, i));
    }
  }

  /** Writes outside the tables, and to last-level tables, leave all tables in place. */
  lemma SameTables(mem: Memory, mem': Memory, root: nat, owner: map<nat, Path>, p: Path)
    requires Tree(mem, root, owner)
    requires forall f, i: nat {:trigger Get(mem', f, i)} | f in owner && !owner[f].Pt? ::
        Get(mem', f, i) == Get(mem, f, i)
    ensures TableOf(mem', root, p) == TableOf(mem, root, p)
  {
    TableOwned(mem, root, owner, p);
    match p
    case Pml4 =>
    case Pdpt(i4) =>
      TableOwned(mem, root, owner, Pml4);
    case Pd(i4, i3) =>
      TableOwned(mem, root, owner, Pml4);
      TableOwned(mem, root, owner, Pdpt(i4));
    case Pt(i4, i3, i2) =>
      TableOwned(mem, root, owner, Pml4);
      TableOwned(mem, root, owner, Pdpt(i4));
      TableOwned(mem, root, owner, Pd(i4, i3));
  }

  // ---------------------------------------------------------------- one new table

  /** The table at path p after the one at path made came to be child. */
  function Grown(mem: Memory, root: nat, made: Path, child: nat, p: Path): Option<nat> {
    if p == made then Some(child) else TableOf(mem, root, p)
  }

  /** One level further down, a step of the walk makes one table and no other. */
  lemma StepFollow(root: nat, m0: Memory, o0: map<nat, Path>, m1: Memory, o1: map<nat, Path>, q: Path, t: nat, i: nat,
                   child: nat, r: Path, j: nat)
    requires Tree(m0, root, o0) && Step(m0, o0, m1, o1, t, i, child) && !q.Pt? && TableOf(m0, root, q) == Some(t)
    requires !Get(m0, t, i).flags.present && !r.Pt?
    requires TableOf(m1, root, r) == Grown(m0, root, Sub(q, i), child, r)
    ensures TableOf(m1, root, Sub(r, j)) == Grown(m0, root, Sub(q, i), child, Sub(r, j))
  {
    TableOwned(m0, root, o0, q);
    TableOwned(m0, root, o0, r);
    FollowIs(m0, root, r, j);
    FollowIs(m1, root, r, j);
    FollowIs(m0, root, q, i);
    hide Tree, TableOf;
    if r == Sub(q, i) {
      assert Get(m1, child, j) == ZERO;
    } else if Has(m0, root, r) {
      var f := TableOf(m0, root, r).value;
      assert f in o0 && (f == t ==> r == q);
      assert !(f == t && j == i) ==> Get(m1, f, j) == Get(m0, f, j);
    }
  }

  lemma FollowIs(mem: Memory, root: nat, q: Path, i: nat)
    requires !q.Pt?
    ensures TableOf(mem, root, Sub(q, i)) == Follow(mem, q, TableOf(mem, root, q), i)
  {
  }

  lemma NewTable(root: nat, m0: Memory, o0: map<nat, Path>, m1: Memory, o1: map<nat, Path>, q: Path, t: nat, i: nat,
                 child: nat, p: Path)
    requires Tree(m0, root, o0) && Step(m0, o0, m1, o1, t, i, child) && !q.Pt? && TableOf(m0, root, q) == Some(t)
    requires !Get(m0, t, i).flags.present
    ensures TableOf(m1, root, p) == Grown(m0, root, Sub(q, i), child, p)
  {
    hide Tree, Step, Grown, TableOf;
    RootTable(m0, root, q, i, child);
    RootTable(m1, root, q, i, child);
    match p
    case Pml4 =>
    case Pdpt(i4) => StepFollow(root, m0, o0, m1, o1, q, t, i, child, Pml4, i4);
    case Pd(i4, i3) =>
      StepFollow(root, m0, o0, m1, o1, q, t, i, child, Pml4, i4);
      StepFollow(root, m0, o0, m1, o1, q, t, i, child, Pdpt(i4), i3);
    case Pt(i4, i3, i2) =>
      StepFollow(root, m0, o0, m1, o1, q, t, i, child, Pml4, i4);
      StepFollow(root, m0, o0, m1, o1, q, t, i, child, Pdpt(i4), i3);
      StepFollow(root, m0, o0, m1, o1, q, t, i, child, Pd(i4, i3), i2);
  }

  lemma RootTable(mem: Memory, root: nat, q: Path, i: nat, child: nat)
    requires !q.Pt?
    ensures TableOf(mem, root, Pml4) == Some(root) && Grown(mem, root, Sub(q, i), child, Pml4) == Some(root)
  {
  }

  /** The table is there afterwards, and no other table has come or gone. */
  lemma StepTables(root: nat, m0: Memory, o0: map<nat, Path>, m1: Memory, o1: map<nat, Path>, q: Path, t: nat, i: nat,
                   child: nat)
    requires Tree(m0, root, o0) && Step(m0, o0, m1, o1, t, i, child) && !q.Pt? && TableOf(m0, root, q) == Some(t)
    requires q.Pd? ==> !(Get(m0, t, i).flags.present && Get(m0, t, i).flags.huge)
    ensures TableOf(m1, root, Sub(q, i)) == Some(child)
    ensures forall p {:trigger Has(m1, root, p)} :: Has(m1, root, p) <==> p == Sub(q, i) || Has(m0, root, p)
    ensures Has(m0, root, Sub(q, i)) <==> Get(m0, t, i).flags.present
  {
    FollowIs(m0, root, q, i);
    if !Get(m0, t, i).flags.present {
      forall p ensures TableOf(m1, root, p) == Grown(m0, root, Sub(q, i), child, p) {
        NewTable(root, m0, o0, m1, o1, q, t, i, child, p);
      }
    }
  }

  lemma LacksAt(mem: Memory, root: nat, q: Path, t: nat, i: nat)
    requires TableOf(mem, root, q) == Some(t) && !q.Pt?
    requires q.Pd? ==> !(Get(mem, t, i).flags.present && Get(mem, t, i).flags.huge)
    ensures Lacks(mem, root, Sub(q, i)) == if Get(mem, t, i).flags.present then 0 else 1
  {
    FollowIs(mem, root, q, i);
  }

  /** Writing a last-level entry after tables were added. */
  lemma LeafAdds(root: nat, m0: Memory, m: Memory, owner: map<nat, Path>, made: set<Path>, pt: nat, i: nat, e: Pte)
    requires Tree(m, root, owner) && pt in owner && owner[pt].Pt? && i < ENTRIES && Added(root, m0, m, made)
    ensures pt < |m| && |m[pt]| == ENTRIES && Added(root, m0, Put(m, pt, i, e), made)
  {
    var m' := Put(m, pt, i, e);
    forall p ensures Has(m', root, p) <==> p in made || Has(m0, root, p) {
      assert Has(m, root, p) <==> p in made || Has(m0, root, p);
      forall f, j: nat | f in owner && !owner[f].Pt? ensures Get(m', f, j) == Get(m, f, j) {
        GetPut(m, pt, i, e, f, j);
      }
      SameTables(m, m', root, owner, p);
    }
  }

  /** Zeroing a frame that is no table. */
  lemma ZeroedTables(root: nat, mem: Memory, owner: map<nat, Path>, g: nat)
    requires Tree(mem, root, owner) && g < |mem| && g !in owner
    ensures Added(root, mem, Zeroed(mem, g), {})
  {
    forall p ensures Has(Zeroed(mem, g), root, p) <==> Has(mem, root, p) {
      forall f, i: nat | f in owner && !owner[f].Pt? ensures Get(Zeroed(mem, g), f, i) == Get(mem, f, i) {
        GetZeroed(mem, g, f, i);
      }
      SameTables(mem, Zeroed(mem, g), root, owner, p);
    }
  }

  lemma SameMissing(root: nat, m0: Memory, m1: Memory, va: nat)
    requires Added(root, m0, m1, {})
    ensures Missing(m1, root, va) == Missing(m0, root, va)
    ensures forall m2, made :: Added(root, m1, m2, made) ==> Added(root, m0, m2, made)
  {
    assert forall p :: Has(m1, root, p) <==> Has(m0, root, p);
  }

  // ---------------------------------------------------------------- what a page needs

  /** The three tables on the path of va. */
  function Needs(va: nat): set<Path> {
    {Pdpt(I4(va)), Pd(I4(va), I3(va)), Pt(I4(va), I3(va), I2(va))}
  }

  function Lacks(mem: Memory, root: nat, p: Path): nat {
    if Has(mem, root, p) then 0 else 1
  }

  /** How many of them are missing. */
  function Missing(mem: Memory, root: nat, va: nat): nat {
    Lacks(mem, root, Pdpt(I4(va))) + Lacks(mem, root, Pd(I4(va), I3(va))) + Lacks(mem, root, Pt(I4(va), I3(va), I2(va)))
  }

  /** The tables of mem' are those of mem and those on the paths in made. */
  ghost predicate Added(root: nat, mem: Memory, mem': Memory, made: set<Path>) {
    forall p {:trigger Has(mem', root, p)} :: Has(mem', root, p) <==> p in made || Has(mem, root, p)
  }

  /** The tables needed for the first n pages of a run. */
  function RunNeeds(base: nat, n: nat): set<Path> {
    if n == 0 then {} else RunNeeds(base, n - 1) + Needs(PageAt(base, n - 1))
  }

  function RunMissing(mem: Memory, root: nat, base: nat, n: nat): set<Path> {
    set p | p in RunNeeds(base, n) && !Has(mem, root, p)
  }

  /** The frames that the first n pages of a run take: one a page, and one for each table
      that is missing. */
  function Demand(mem: Memory, root: nat, base: nat, n: nat): nat {
    n + |RunMissing(mem, root, base, n)|
  }

  /** Page n, after the pages before it, takes a frame and those for the tables that are
      missing by then. */
  lemma DemandNext(root: nat, m0: Memory, m: Memory, base: nat, n: nat)
    requires Added(root, m0, m, RunNeeds(base, n))
    ensures Demand(m0, root, base, n + 1) == Demand(m0, root, base, n) + 1 + Missing(m, root, PageAt(base, n))
  {
    var va := PageAt(base, n);
    var more := set p | p in Needs(va) && !Has(m, root, p);
    assert RunMissing(m0, root, base, n + 1) == RunMissing(m0, root, base, n) + more;
    assert RunMissing(m0, root, base, n) !! more;
    NewCount(m, root, va, more);
  }

  lemma NewCount(mem: Memory, root: nat, va: nat, more: set<Path>)
    requires forall p :: p in more <==> p in Needs(va) && !Has(mem, root, p)
    ensures |more| == Missing(mem, root, va)
  {
    var p1, p2, p3 := Pdpt(I4(va)), Pd(I4(va), I3(va)), Pt(I4(va), I3(va), I2(va));
    var s1 := if Has(mem, root, p1) then {} else {p1};
    var s2 := if Has(mem, root, p2) then {} else {p2};
    var s3 := if Has(mem, root, p3) then {} else {p3};
    assert more == s1 + s2 + s3;
    assert |s1 + s2| == |s1| + |s2| && |s1 + s2 + s3| == |s1 + s2| + |s3|;
  }

  lemma {:induction false} DemandRises(mem: Memory, root: nat, base: nat, k: nat, n: nat)
    requires k < n
    ensures Demand(mem, root, base, k) < Demand(mem, root, base, n)
  {
    hide Has, Needs;
    if k < n - 1 {
      DemandRises(mem, root, base, k, n - 1);
    }
    SubsetSize(RunMissing(mem, root, base, n - 1), RunMissing(mem, root, base, n));
  }

  /** The frames are used up exactly by the first pages of a run of n. */
  ghost predicate UsedUp(mem: Memory, root: nat, base: nat, n: nat, frames: nat) {
    exists k: nat {:trigger Demand(mem, root, base, k)} :: k < n && Demand(mem, root, base, k) == frames
  }

  lemma NotUsedUp(mem: Memory, root: nat, base: nat, n: nat, frames: nat, k: nat)
    requires Demand(mem, root, base, k) < frames < Demand(mem, root, base, k + 1)
    ensures !UsedUp(mem, root, base, n, frames)
  {
    forall l: nat | Demand(mem, root, base, l) == frames ensures false {
      if l < k {
        DemandRises(mem, root, base, l, k);
      } else if l > k + 1 {
        DemandRises(mem, root, base, k + 1, l);
      }
    }
  }

  /** The frames are enough for the first page but not for all n, and they do not run out
      exactly before a page. */
  ghost predicate StopsWithin(mem: Memory, root: nat, base: nat, n: nat, frames: nat) {
    && n <= frames && Demand(mem, root, base, 1) < frames < Demand(mem, root, base, n)
    && !UsedUp(mem, root, base, n, frames)
  }

  /** A call that is refused does not. */
  lemma NotAtAll(mem: Memory, root: nat, base: nat, n: nat, frames: nat)
    ensures n == 0 || frames < n ==> !StopsWithin(mem, root, base, n, frames)
    ensures Demand(mem, root, base, n) >= n
  {
    if n == 0 {
      DemandRises(mem, root, base, 0, 1);
    }
  }

  /** Which shortage it is follows from the demand of the pages. */
  lemma Abandoned(mem: Memory, root: nat, base: nat, i: nat, n: nat, frames: nat, r: Backing)
    requires n <= frames && (if r == Backed then i == n && frames >= Demand(mem, root, base, n) else i < n)
    requires r == NoFrame ==> frames == Demand(mem, root, base, i)
    requires r == NoTable ==> Demand(mem, root, base, i) < frames < Demand(mem, root, base, i + 1)
    ensures r != Backed ==> frames < Demand(mem, root, base, n)
    ensures r == NoFrame ==> UsedUp(mem, root, base, n, frames)
    ensures r == NoTable ==> !UsedUp(mem, root, base, n, frames)
    ensures StopsWithin(mem, root, base, n, frames) <==> r == NoTable && i > 0
  {
    if r == NoFrame {
      DemandRises(mem, root, base, i, n);
    } else if r == NoTable {
      NotUsedUp(mem, root, base, n, frames, i);
      if i + 1 < n {
        DemandRises(mem, root, base, i + 1, n);
      }
      if i > 1 {
        DemandRises(mem, root, base, 1, i);
      }
    }
  }

  lemma NothingAdded(root: nat, mem: Memory, base: nat)
    ensures Added(root, mem, mem, RunNeeds(base, 0)) && Demand(mem, root, base, 0) == 0
  {
    assert RunMissing(mem, root, base, 0) == {};
  }

  lemma AddedNext(root: nat, m0: Memory, m1: Memory, m2: Memory, base: nat, n: nat)
    requires Added(root, m0, m1, RunNeeds(base, n)) && Added(root, m1, m2, Needs(PageAt(base, n)))
    ensures Added(root, m0, m2, RunNeeds(base, n + 1))
  {
    assert forall p :: Has(m1, root, p) <==> p in RunNeeds(base, n) || Has(m0, root, p);
  }

  // ---------------------------------------------------------------- the walk of one page

  /** The three steps of the walk for va took as many frames as tables were missing, and
      made these. */
  lemma WalkAdds(root: nat, va: nat, m0: Memory, o0: map<nat, Path>, m1: Memory, o1: map<nat, Path>, pdpt: nat,
                 m2: Memory, o2: map<nat, Path>, pd: nat, m3: Memory, o3: map<nat, Path>, pt: nat)
    requires Tree(m0, root, o0) && Tree(m1, root, o1) && Tree(m2, root, o2)
    requires Step(m0, o0, m1, o1, root, I4(va), pdpt) && Step(m1, o1, m2, o2, pdpt, I3(va), pd)
    requires Step(m2, o2, m3, o3, pd, I2(va), pt)
    requires !(Get(m2, pd, I2(va)).flags.present && Get(m2, pd, I2(va)).flags.huge)
    ensures Added(root, m0, m3, Needs(va))
    ensures Lacks(m0, root, Pdpt(I4(va))) == if Get(m0, root, I4(va)).flags.present then 0 else 1
    ensures Lacks(m0, root, Pd(I4(va), I3(va))) == if Get(m1, pdpt, I3(va)).flags.present then 0 else 1
    ensures Lacks(m0, root, Pt(I4(va), I3(va), I2(va))) == if Get(m2, pd, I2(va)).flags.present then 0 else 1
  {
    hide Tree, Step, Has;
    WalkAddsTwo(root, va, m0, o0, m1, o1, pdpt, m2, o2, pd);
    StepTables(root, m2, o2, m3, o3, Pd(I4(va), I3(va)), pd, I2(va), pt);
  }

  lemma WalkAddsTwo(root: nat, va: nat, m0: Memory, o0: map<nat, Path>, m1: Memory, o1: map<nat, Path>, pdpt: nat,
                    m2: Memory, o2: map<nat, Path>, pd: nat)
    requires Tree(m0, root, o0) && Tree(m1, root, o1)
    requires Step(m0, o0, m1, o1, root, I4(va), pdpt) && Step(m1, o1, m2, o2, pdpt, I3(va), pd)
    ensures TableOf(m2, root, Pd(I4(va), I3(va))) == Some(pd)
    ensures Added(root, m0, m2, {Pdpt(I4(va)), Pd(I4(va), I3(va))})
    ensures Lacks(m0, root, Pdpt(I4(va))) == if Get(m0, root, I4(va)).flags.present then 0 else 1
    ensures Lacks(m0, root, Pd(I4(va), I3(va))) == if Get(m1, pdpt, I3(va)).flags.present then 0 else 1
  {
    hide Tree, Step, Has;
    RootTable(m0, root, Pml4, I4(va), pdpt);
    StepTables(root, m0, o0, m1, o1, Pml4, root, I4(va), pdpt);
    StepTables(root, m1, o1, m2, o2, Pdpt(I4(va)), pdpt, I3(va), pd);
  }

  /** The first step alone. */
  lemma WalkAddsOne(root: nat, va: nat, m0: Memory, o0: map<nat, Path>, m1: Memory, o1: map<nat, Path>, pdpt: nat)
    requires Tree(m0, root, o0) && Step(m0, o0, m1, o1, root, I4(va), pdpt)
    ensures TableOf(m1, root, Pdpt(I4(va))) == Some(pdpt)
    ensures Lacks(m0, root, Pdpt(I4(va))) == if Get(m0, root, I4(va)).flags.present then 0 else 1
    ensures forall p {:trigger Has(m1, root, p)} :: Has(m1, root, p) <==> p == Pdpt(I4(va)) || Has(m0, root, p)
  {
    hide Tree, Step, Has;
    RootTable(m0, root, Pml4, I4(va), pdpt);
    StepTables(root, m0, o0, m1, o1, Pml4, root, I4(va), pdpt);
  }

  /** A table that comes on the way does not change what else is missing. */
  lemma LacksKept(root: nat, m0: Memory, m1: Memory, made: Path, p: Path)
    requires forall r {:trigger Has(m1, root, r)} :: Has(m1, root, r) <==> r == made || Has(m0, root, r)
    requires p != made
    ensures Lacks(m1, root, p) == Lacks(m0, root, p)
  {
    assert Has(m1, root, p) <==> Has(m0, root, p);
  }

  lemma LacksLast(root: nat, va: nat, m0: Memory, m2: Memory, pd: nat)
    requires TableOf(m2, root, Pd(I4(va), I3(va))) == Some(pd)
        && Added(root, m0, m2, {Pdpt(I4(va)), Pd(I4(va), I3(va))})
    requires !(Get(m2, pd, I2(va)).flags.present && Get(m2, pd, I2(va)).flags.huge)
    ensures Lacks(m0, root, Pt(I4(va), I3(va), I2(va))) == if Get(m2, pd, I2(va)).flags.present then 0 else 1
  {
    LacksAt(m2, root, Pd(I4(va), I3(va)), pd, I2(va));
    assert Has(m2, root, Pt(I4(va), I3(va), I2(va))) <==> Has(m0, root, Pt(I4(va), I3(va), I2(va)));
  }
}

/** The page tables the bootloader hands over (bootloader/main.c:238-319). */
module BootTables {
  import opened Paging
  import opened Spaces
  import opened Tables

  const KERNEL_VIRT := 0xFFFF_FFFF_8000_0000

  /** Address of the first kernel byte: the second 2 MB of the kernel region. */
  const KERNEL_TEXT := KERNEL_VIRT + PAGE_2M
  const GB := 0x4000_0000

  /** phys | 0x03: a table, present and writable. */
  function TableAt(frame: nat): Pte {
    Pte(frame, Flags(true, true, false, false, 0))
  }

  /** phys | 0x83: 2 MB, present and writable. */
  function HugeAt(phys: nat): Pte {
    Pte(phys / PAGE, Flags(true, true, false, true, 0))
  }

  /** PDPT slot that a framebuffer above 8 GB gets besides the first eight. */
  predicate FbSlot(fbBase: nat, i: nat) {
    fbBase >= 8 * GB && i == fbBase / GB % ENTRIES && i >= 8
  }

  /** Entry i of the j-th of the twelve pages that start at frame pt: 0 is the PML4, 1 and 2
      the PDPTs of the low and the high half, 3 to 10 the directories of the first 8 GB,
      11 the directory of the kernel. */
  function BootEntry(pt: nat, kernelBase: nat, fbBase: nat, j: nat, i: nat): Pte {
    if j == 0 then (if i == 0 then TableAt(pt + 1) else if i == 511 then TableAt(pt + 2) else ZERO)
    else if j == 1 then (if i < 8 then TableAt(pt + 3 + i) else if FbSlot(fbBase, i) then TableAt(pt + 10) else ZERO)
    else if j == 2 then (if i == 510 then TableAt(pt + 11) else ZERO)
    else if j < 11 then HugeAt((j - 3) * GB + i * PAGE_2M)
    else if i == 0 then HugeAt(0) else HugeAt(kernelBase + (i - 1) * PAGE_2M)
  }

  /** Memory holds the twelve tables. */
  ghost predicate HasTables(mem: Memory, pt: nat, kernelBase: nat, fbBase: nat) {
    && WellSized(mem) && pt + 12 <= |mem|
    && forall j: nat, i: nat {:trigger BootEntry(pt, kernelBase, fbBase, j, i)} | j < 12 && i < ENTRIES ::
         Get(mem, pt + j, i) == BootEntry(pt, kernelBase, fbBase, j, i)
  }

  method ZeroPages(mem: Memory, pt: nat) returns (m: Memory)
    requires WellSized(mem) && pt + 12 <= |mem|
    ensures WellSized(m) && |m| == |mem|
    ensures forall f: nat, i: nat {:trigger Get(m, f, i)} ::
        Get(m, f, i) == if pt <= f < pt + 12 then ZERO else Get(mem, f, i)
  {
    m := mem;
    for k := 0 to 12
      invariant WellSized(m) && |m| == |mem|
      invariant forall f: nat, i: nat {:trigger Get(m, f, i)} ::
          Get(m, f, i) == if pt <= f < pt + k then ZERO else Get(mem, f, i)
    {
      ghost var before := m;
      m := Zeroed(m, pt + k);
      forall f: nat, i: nat ensures Get(m, f, i) == if f == pt + k then ZERO else Get(before, f, i) {
        GetZeroed(before, pt + k, f, i);
      }
    }
  }

  /** One directory: entry 0 for address first, the others 2 MB apart from address second. */
  method FillDirectory(mem: Memory, pd: nat, first: nat, second: nat) returns (m: Memory)
    requires WellSized(mem) && pd < |mem|
    ensures WellSized(m) && |m| == |mem|
    ensures forall f: nat, i: nat {:trigger Get(m, f, i)} ::
              Get(m, f, i) == if f == pd && i < ENTRIES
                then (if i == 0 then HugeAt(first) else HugeAt(second + (i - 1) * PAGE_2M))
                              else Get(mem, f, i)
  {
    m := mem;
    for k := 0 to ENTRIES
      invariant WellSized(m) && |m| == |mem|
      invariant forall f: nat, i: nat {:trigger Get(m, f, i)} ::
                  Get(m, f, i) == if f == pd && i < k
                    then (if i == 0 then HugeAt(first) else HugeAt(second + (i - 1) * PAGE_2M))
                                  else Get(mem, f, i)
    {
      ghost var before := m;
      var e := if k == 0 then HugeAt(first) else HugeAt(second + (k - 1) * PAGE_2M);
      m := Put(m, pd, k, e);
      forall f: nat, i: nat ensures Get(m, f, i) == if f == pd && i == k then e else Get(before, f, i) {
        GetPut(before, pd, k, e, f, i);
      }
    }
  }

  /** Entry i of frame f becomes e. */
  method Write(mem: Memory, f: nat, i: nat, e: Pte) returns (m: Memory)
    requires WellSized(mem) && f < |mem| && i < ENTRIES
    ensures WellSized(m) && |m| == |mem|
    ensures forall g: nat, j: nat {:trigger Get(m, g, j)} ::
        Get(m, g, j) == if g == f && j == i then e else Get(mem, g, j)
  {
    m := Put(mem, f, i, e);
    forall g: nat, j: nat ensures Get(m, g, j) == if g == f && j == i then e else Get(mem, g, j) {
      GetPut(mem, f, i, e, g, j);
    }
  }

  /** setup_kernel_page_tables (main.c:262-318) on twelve allocated pages. */
  method SetupKernelPageTables(mem: Memory, pt: nat, kernelBase: nat, fbBase: nat) returns (m: Memory)
    requires WellSized(mem) && pt + 12 <= |mem|
    ensures |m| == |mem| && HasTables(m, pt, kernelBase, fbBase)
    ensures forall f: nat, i: nat {:trigger Get(m, f, i)} | !(pt <= f < pt + 12) :: Get(m, f, i) == Get(mem, f, i)
  {
    m := ZeroPages(mem, pt);
    m := Write(m, pt, 0, TableAt(pt + 1));
    m := Write(m, pt, 511, TableAt(pt + 2));
    ghost var top := m;
    for g := 0 to 8
      invariant WellSized(m) && |m| == |mem|
      invariant forall f: nat, i: nat {:trigger Get(m, f, i)} ::
                  Get(m, f, i) == if f == pt + 1 && i < g then TableAt(pt + 3 + i)
                                  else if pt + 3 <= f < pt + 3 + g && i < ENTRIES
                                    then HugeAt((f - pt - 3) * GB + i * PAGE_2M)
                                  else Get(top, f, i)
    {
      m := Write(m, pt + 1, g, TableAt(pt + 3 + g));
      m := FillDirectory(m, pt + 3 + g, g * GB, g * GB + PAGE_2M);
    }
    if fbBase >= 8 * GB {
      var slot := fbBase / GB % ENTRIES;
      if Get(m, pt + 1, slot) == ZERO {
        m := Write(m, pt + 1, slot, TableAt(pt + 10));
      }
    }
    m := Write(m, pt + 2, 510, TableAt(pt + 11));
    m := FillDirectory(m, pt + 11, 0, kernelBase);
  }

  lemma BootEntryAt(mem: Memory, pt: nat, kernelBase: nat, fbBase: nat, j: nat, i: nat)
    requires HasTables(mem, pt, kernelBase, fbBase) && j < 12 && i < ENTRIES
    ensures Get(mem, pt + j, i) == BootEntry(pt, kernelBase, fbBase, j, i)
  {
  }

  /** Every address below 8 GB translates to itself. */
  lemma IdentityMap(mem: Memory, pt: nat, kernelBase: nat, fbBase: nat, va: nat)
    requires HasTables(mem, pt, kernelBase, fbBase) && va < 8 * GB
    ensures Translate(mem, pt, va) == va
  {
    var g, i := va / GB, I2(va);
    assert I4(va) == 0 && I3(va) == g;
    BootEntryAt(mem, pt, kernelBase, fbBase, 0, 0);
    BootEntryAt(mem, pt, kernelBase, fbBase, 1, g);
    BootEntryAt(mem, pt, kernelBase, fbBase, 3 + g, i);
    assert va / PAGE_2M == g * ENTRIES + i;
  }

  /** The kernel region: its first 2 MB are low memory, the rest is where the kernel was
      loaded. */
  lemma KernelMap(mem: Memory, pt: nat, kernelBase: nat, fbBase: nat, va: nat)
    requires HasTables(mem, pt, kernelBase, fbBase) && kernelBase % PAGE == 0
    requires KERNEL_VIRT <= va < KERNEL_VIRT + GB
    ensures Translate(mem, pt, va) == if va < KERNEL_TEXT then va - KERNEL_VIRT else kernelBase + (va - KERNEL_TEXT)
  {
    var i := (va - KERNEL_VIRT) / PAGE_2M;
    KernelSlots(va);
    BootEntryAt(mem, pt, kernelBase, fbBase, 0, 511);
    BootEntryAt(mem, pt, kernelBase, fbBase, 2, 510);
    BootEntryAt(mem, pt, kernelBase, fbBase, 11, i);
  }

  lemma KernelSlots(va: nat)
    requires KERNEL_VIRT <= va < KERNEL_VIRT + GB
    ensures I4(va) == 511 && I3(va) == 510 && I2(va) == (va - KERNEL_VIRT) / PAGE_2M < ENTRIES
    ensures va % PAGE_2M == (va - KERNEL_VIRT) % PAGE_2M
  {
    assert va / 0x80_0000_0000 == 0x1FF_FFFF;
    assert va / GB == 0x1FF_FFFF * 512 + 510;
    assert va / PAGE_2M == (0x1FF_FFFF * 512 + 510) * 512 + (va - KERNEL_VIRT) / PAGE_2M;
  }

  /** Without a framebuffer above 8 GB no other canonical address is mapped. */
  lemma NothingElseMapped(mem: Memory, pt: nat, kernelBase: nat, fbBase: nat, va: nat)
    requires HasTables(mem, pt, kernelBase, fbBase) && fbBase < 8 * GB && Canonical(va) && Translate(mem, pt, va) != 0
    ensures va < 8 * GB || KERNEL_VIRT <= va < KERNEL_VIRT + GB
  {
    BootEntryAt(mem, pt, kernelBase, fbBase, 0, I4(va));
    BootEntryAt(mem, pt, kernelBase, fbBase, 1, I3(va));
    BootEntryAt(mem, pt, kernelBase, fbBase, 2, I3(va));
    CanonicalSlots(va);
  }

  lemma CanonicalSlots(va: nat)
    requires Canonical(va)
    ensures I4(va) == 0 && I3(va) < 8 ==> va < 8 * GB
    ensures I4(va) == 511 && I3(va) == 510 ==> KERNEL_VIRT <= va < KERNEL_VIRT + GB
  {
    var q := va / 0x80_0000_0000;
    assert va / GB / ENTRIES == q;
    assert va < 0x8000_0000_0000 ==> q < 256;
    assert va >= 0xFFFF_8000_0000_0000 ==> 0x1FF_FF00 <= q <= 0x1FF_FFFF;
    if q >= 256 && I4(va) == 511 {
      assert q == 0x1FF_FFFF;
    }
  }

  /** Where each of the twelve tables stands. */
  function BootPath(j: nat): Path {
    if j == 0 then Pml4 else if j == 1 then Pdpt(0) else if j == 2 then Pdpt(511)
    else if j < 11 then Pd(0, j - 3) else Pd(511, 510)
  }

  ghost function BootOwner(pt: nat): map<nat, Path> {
    map[pt := BootPath(0), pt + 1 := BootPath(1), pt + 2 := BootPath(2), pt + 3 := BootPath(3), pt + 4 := BootPath(4),
        pt + 5 := BootPath(5), pt + 6 := BootPath(6), pt + 7 := BootPath(7), pt + 8 := BootPath(8),
        pt + 9 := BootPath(9),
        pt + 10 := BootPath(10), pt + 11 := BootPath(11)]
  }

  /** The tables form the kind of tree the memory manager starts from: unshared, without
      4 KB pages, and with no 2 MB page in the pool region. */
  lemma BootTree(mem: Memory, pt: nat, kernelBase: nat, fbBase: nat)
    requires HasTables(mem, pt, kernelBase, fbBase) && fbBase < 8 * GB
    ensures Tree(mem, pt, BootOwner(pt)) && PoolFlat(mem, BootOwner(pt))
    ensures forall f | f in BootOwner(pt) :: !BootOwner(pt)[f].Pt?
  {
    var owner := BootOwner(pt);
    forall f, i: nat | f in owner && i < ENTRIES && Points(owner[f], Get(mem, f, i))
      ensures PointsTo(owner, Get(mem, f, i).frame, Sub(owner[f], i))
    {
      assert pt <= f < pt + 12 && owner[f] == BootPath(f - pt);
      BootEntryAt(mem, pt, kernelBase, fbBase, f - pt, i);
    }
  }

  /** Nothing is mapped in the pool at first. */
  lemma PoolUnusedAtBoot(mem: Memory, pt: nat, kernelBase: nat, fbBase: nat)
    requires HasTables(mem, pt, kernelBase, fbBase)
    ensures Unused(mem, pt, POOL_BASE)
  {
    forall va: nat | POOL_BASE <= va < POOL_LIMIT ensures Translate(mem, pt, va) == 0 {
      PoolSlots(va);
      BootEntryAt(mem, pt, kernelBase, fbBase, 0, I4(va));
      BootEntryAt(mem, pt, kernelBase, fbBase, 2, I3(va));
    }
  }

  // ---------------------------------------------------------------- an allocation that is abandoned

  lemma PoolPage(k: nat)
    requires k < 1024
    ensures var va := PageAt(POOL_BASE, k); I4(va) == 511 && I3(va) == 0 && I2(va) == k / 512
  {
    var va := PageAt(POOL_BASE, k);
    assert va / PAGE_2M == 0x7FF_FFFC_0000 + k / 512;
  }

  /** The tables that the first n pages of the pool need. */
  function PoolNeeds(n: nat): set<Path> {
    if n == 0 then {}
    else if n <= 512 then {Pdpt(511), Pd(511, 0), Pt(511, 0, 0)}
    else {Pdpt(511), Pd(511, 0), Pt(511, 0, 0), Pt(511, 0, 1)}
  }

  lemma {:induction false} PoolNeedsAre(n: nat)
    requires n <= 1024
    ensures RunNeeds(POOL_BASE, n) == PoolNeeds(n)
  {
    if n == 0 {
      assert RunNeeds(POOL_BASE, 0) == {};
    } else {
      PoolNeedsAre(n - 1);
      PoolPage(n - 1);
      assert RunNeeds(POOL_BASE, n) == RunNeeds(POOL_BASE, n - 1) + Needs(PageAt(POOL_BASE, n - 1));
    }
  }

  /** Of the tables for the pool the bootloader made the first one only. */
  lemma BootHas(mem: Memory, pt: nat, kernelBase: nat, fbBase: nat)
    requires HasTables(mem, pt, kernelBase, fbBase)
    ensures Has(mem, pt, Pdpt(511)) && !Has(mem, pt, Pd(511, 0)) && forall i :: !Has(mem, pt, Pt(511, 0, i))
  {
    BootEntryAt(mem, pt, kernelBase, fbBase, 0, 511);
    BootEntryAt(mem, pt, kernelBase, fbBase, 2, 0);
  }

  /** So 512 pages take 514 frames, and one more page takes two: a call for 515 pages with 515
      free frames leaves 512 pages mapped and reports that it failed. */
  lemma BootAbandons(mem: Memory, pt: nat, kernelBase: nat, fbBase: nat)
    requires HasTables(mem, pt, kernelBase, fbBase)
    ensures Demand(mem, pt, POOL_BASE, 512) == 514 && Demand(mem, pt, POOL_BASE, 513) == 516
    ensures StopsWithin(mem, pt, POOL_BASE, 515, 515)
  {
    BootDemand(mem, pt, kernelBase, fbBase, 1);
    BootDemand(mem, pt, kernelBase, fbBase, 512);
    BootDemand(mem, pt, kernelBase, fbBase, 513);
    hide Demand;
    NotUsedUp(mem, pt, POOL_BASE, 515, 515, 512);
    DemandRises(mem, pt, POOL_BASE, 513, 515);
  }

  lemma BootDemand(mem: Memory, pt: nat, kernelBase: nat, fbBase: nat, n: nat)
    requires HasTables(mem, pt, kernelBase, fbBase) && 0 < n <= 1024
    ensures Demand(mem, pt, POOL_BASE, n) == n + if n <= 512 then 2 else 3
  {
    BootHas(mem, pt, kernelBase, fbBase);
    PoolNeedsAre(n);
    hide Has, HasTables;
    var missing := if n <= 512 then {Pd(511, 0), Pt(511, 0, 0)} else {Pd(511, 0), Pt(511, 0, 0), Pt(511, 0, 1)};
    assert RunMissing(mem, pt, POOL_BASE, n) == missing;
  }

  // ---------------------------------------------------------------- mapping over a 2 MB page

  /** Every address below 8 GB lies in a 2 MB page. */
  lemma BootLarge(mem: Memory, pt: nat, kernelBase: nat, fbBase: nat, va: nat)
    requires HasTables(mem, pt, kernelBase, fbBase) && va < 8 * GB
    ensures OnLarge(mem, pt, va) && PdEntry(mem, pt, va) == HugeAt(va / PAGE_2M * PAGE_2M)
  {
    var g, i := va / GB, I2(va);
    assert I4(va) == 0 && I3(va) == g;
    BootEntryAt(mem, pt, kernelBase, fbBase, 0, 0);
    BootEntryAt(mem, pt, kernelBase, fbBase, 1, g);
    BootEntryAt(mem, pt, kernelBase, fbBase, 3 + g, i);
    assert va / PAGE_2M == g * ENTRIES + i;
  }

  /** So vmm_map_page of such an address takes the first 4 KB of its 2 MB for a table: where
      these hold no entry with the present bit, another address of the 2 MB, which was
      translated to itself, is not translated any more. */
  lemma BootMapLoses(mem: Memory, pt: nat, kernelBase: nat, fbBase: nat, va: nat, e: Pte, va': nat)
    requires HasTables(mem, pt, kernelBase, fbBase) && fbBase < 8 * GB && va < 8 * GB && va' < 8 * GB
    requires va / PAGE_2M == va' / PAGE_2M && va / PAGE != va' / PAGE
    requires var f := va / PAGE_2M * 512; f < |mem| && !(pt <= f < pt + 12) && !Get(mem, f, I1(va')).flags.present
    ensures Translate(mem, pt, va') == va' && Translate(MappedOver(mem, pt, va, e), pt, va') == 0
  {
    BootTree(mem, pt, kernelBase, fbBase);
    BootLarge(mem, pt, kernelBase, fbBase, va);
    IdentityMap(mem, pt, kernelBase, fbBase, va');
    InOneSlot(va, va');
    hide HasTables, MappedOver;
    MappedOverTranslates(mem, pt, BootOwner(pt), va, e, va');
  }

  lemma InOneSlot(va: nat, va': nat)
    requires va / PAGE_2M == va' / PAGE_2M && va / PAGE != va' / PAGE
    ensures SameSlot(va, va') && !SamePage(va, va')
  {
    assert va / GB == va / PAGE_2M / ENTRIES && va' / GB == va' / PAGE_2M / ENTRIES;
    assert va / 0x80_0000_0000 == va / GB / ENTRIES && va' / 0x80_0000_0000 == va' / GB / ENTRIES;
    assert va / PAGE_2M == va / PAGE / ENTRIES && va' / PAGE_2M == va' / PAGE / ENTRIES;
  }
}

/** Loading the kernel image (bootloader/main.c:163-224). */
module Loader {
  import opened Basics
  import opened Paging
  import opened BootTables

  const PT_LOAD := 1

  datatype Phdr = Phdr(kind: nat, offset: nat, vaddr: nat, filesz: nat, memsz: nat)

  /** End of a segment in memory, in 64 bits. */
  function EndOf(p: Phdr): nat {
    (p.vaddr + p.memsz) % WRAP_64
  }

  predicate IsLoad(ps: seq<Phdr>, i: nat) {
    i < |ps| && ps[i].kind == PT_LOAD
  }

  /** What the ELF specification asks of loadable segments (System V gABI, chapter 5,
      "Program Header"): no wrap-around, file part within the memory part and within the
      file, and no two overlap. */
  ghost predicate WellFormed(ps: seq<Phdr>, file: seq<byte>) {
    && (forall i: nat | IsLoad(ps, i) ::
          ps[i].vaddr + ps[i].memsz < WRAP_64 && ps[i].filesz <= ps[i].memsz && ps[i].offset + ps[i].filesz <= |file|)
    && (forall i: nat, j: nat | IsLoad(ps, i) && IsLoad(ps, j) && i != j ::
          ps[i].vaddr + ps[i].memsz <= ps[j].vaddr || ps[j].vaddr + ps[j].memsz <= ps[i].vaddr)
  }

  /** The byte that segment p puts at virtual address v. */
  function SegmentByte(p: Phdr, file: seq<byte>, v: nat): byte
    requires p.vaddr <= v < p.vaddr + p.memsz && p.offset + p.filesz <= |file|
  {
    if v - p.vaddr < p.filesz then file[p.offset + (v - p.vaddr)] else 0
  }

  /** v belongs to segment i. */
  predicate InSegment(ps: seq<Phdr>, i: nat, v: nat) {
    IsLoad(ps, i) && ps[i].vaddr <= v < ps[i].vaddr + ps[i].memsz
  }

  /** Memory from base on holds the segments, where low is the lowest address. */
  ghost predicate Loaded(memory: seq<byte>, ps: seq<Phdr>, file: seq<byte>, base: nat, low: nat)
    requires WellFormed(ps, file)
  {
    forall i: nat, v: nat {:trigger InSegment(ps, i, v)} | InSegment(ps, i, v) ::
      low <= v && base + (v - low) < |memory| && memory[base + (v - low)] == SegmentByte(ps[i], file, v)
  }

  /** Lowest address of the first n headers, as the loop computes it. */
  function Lowest(ps: seq<Phdr>, n: nat): nat
    requires n <= |ps|
  {
    if n == 0 then WRAP_64 - 1 else
      var m := Lowest(ps, n - 1);
      if ps[n - 1].kind == PT_LOAD && ps[n - 1].vaddr < m then ps[n - 1].vaddr else m
  }

  function Highest(ps: seq<Phdr>, n: nat): nat
    requires n <= |ps|
  {
    if n == 0 then 0 else
      var m := Highest(ps, n - 1);
      if ps[n - 1].kind == PT_LOAD && EndOf(ps[n - 1]) > m then EndOf(ps[n - 1]) else m
  }

  /** Lowest is attained by a segment, unless there is none. */
  lemma {:induction false} LowestIs(ps: seq<Phdr>, n: nat)
    requires n <= |ps|
    ensures Lowest(ps, n) == WRAP_64 - 1 || exists i: nat {:trigger IsLoad(ps, i)} ::
        i < n && IsLoad(ps, i) && ps[i].vaddr == Lowest(ps, n)
  {
    if n > 0 {
      LowestIs(ps, n - 1);
      assert IsLoad(ps, n - 1) <==> ps[n - 1].kind == PT_LOAD;
    }
  }

  lemma {:induction false} HighestIs(ps: seq<Phdr>, n: nat)
    requires n <= |ps|
    ensures Highest(ps, n) == 0 || exists i: nat {:trigger IsLoad(ps, i)} ::
        i < n && IsLoad(ps, i) && EndOf(ps[i]) == Highest(ps, n)
  {
    if n > 0 {
      HighestIs(ps, n - 1);
      assert IsLoad(ps, n - 1) <==> ps[n - 1].kind == PT_LOAD;
    }
  }

  /** Some segment begins below the end of some segment. */
  ghost predicate Loadable(ps: seq<Phdr>) {
    exists i: nat, j: nat {:trigger IsLoad(ps, i), IsLoad(ps, j)} ::
      IsLoad(ps, i) && IsLoad(ps, j) && ps[i].vaddr < EndOf(ps[j])
  }

  /** The bounds found make sense exactly then; without segments, or with empty ones at one
      address, they do not. */
  lemma LoadableIff(ps: seq<Phdr>)
    requires forall i: nat {:trigger IsLoad(ps, i)} | IsLoad(ps, i) :: ps[i].vaddr < WRAP_64
    ensures Lowest(ps, |ps|) < Highest(ps, |ps|) <==> Loadable(ps)
  {
    LowestIs(ps, |ps|);
    HighestIs(ps, |ps|);
    forall i: nat | IsLoad(ps, i) ensures Lowest(ps, |ps|) <= ps[i].vaddr && EndOf(ps[i]) <= Highest(ps, |ps|) {
      BoundsHold(ps, |ps|, i);
    }
  }

  /** Pages the image needs. */
  function ImagePages(ps: seq<Phdr>): nat
    requires Lowest(ps, |ps|) < Highest(ps, |ps|)
  {
    (Highest(ps, |ps|) - Lowest(ps, |ps|) + 0xFFF) / PAGE
  }

  lemma {:induction false} BoundsHold(ps: seq<Phdr>, n: nat, i: nat)
    requires i < n <= |ps| && ps[i].kind == PT_LOAD
    ensures Lowest(ps, n) <= ps[i].vaddr && EndOf(ps[i]) <= Highest(ps, n)
  {
    if i < n - 1 {
      BoundsHold(ps, n - 1, i);
    }
  }

  /** The loop over the program headers (main.c:164-172). */
  method FindBounds(ps: seq<Phdr>) returns (low: nat, high: nat)
    ensures low == Lowest(ps, |ps|) && high == Highest(ps, |ps|)
    ensures forall i: nat {:trigger IsLoad(ps, i)} | IsLoad(ps, i) :: low <= ps[i].vaddr && EndOf(ps[i]) <= high
    ensures low == WRAP_64 - 1 || exists i: nat {:trigger IsLoad(ps, i)} :: IsLoad(ps, i) && ps[i].vaddr == low
    ensures high == 0 || exists i: nat {:trigger IsLoad(ps, i)} :: IsLoad(ps, i) && EndOf(ps[i]) == high
  {
    LowestIs(ps, |ps|);
    HighestIs(ps, |ps|);
    forall i: nat | IsLoad(ps, i) ensures Lowest(ps, |ps|) <= ps[i].vaddr && EndOf(ps[i]) <= Highest(ps, |ps|) {
      BoundsHold(ps, |ps|, i);
    }
    low, high := WRAP_64 - 1, 0;
    for i := 0 to |ps|
      invariant low == Lowest(ps, i) && high == Highest(ps, i)
    {
      if ps[i].kind == PT_LOAD {
        if ps[i].vaddr < low {
          low := ps[i].vaddr;
        }
        if EndOf(ps[i]) > high {
          high := EndOf(ps[i]);
        }
      }
    }
  }

  /** SetMem to zero. */
  method ZeroBytes(memory: array<byte>, from: nat, n: nat)
    requires from + n <= memory.Length
    modifies memory
    ensures forall a | 0 <= a < memory.Length :: memory[a] == if from <= a < from + n then 0 else old(memory[a])
  {
    for k := 0 to n
      invariant forall a | 0 <= a < memory.Length :: memory[a] == if from <= a < from + k then 0 else old(memory[a])
    {
      memory[from + k] := 0;
    }
  }

  /** A read of n bytes at offset, all of them in the file. */
  method ReadBytes(file: seq<byte>, offset: nat, n: nat, memory: array<byte>, dest: nat)
    requires offset + n <= |file| && dest + n <= memory.Length
    modifies memory
    ensures forall a | 0 <= a < memory.Length ::
              memory[a] == if dest <= a < dest + n then file[offset + (a - dest)] else old(memory[a])
  {
    for k := 0 to n
      invariant forall a | 0 <= a < memory.Length ::
                  memory[a] == if dest <= a < dest + k then file[offset + (a - dest)] else old(memory[a])
    {
      memory[dest + k] := file[offset + k];
    }
  }

  /** The file parts of the segments are in the file and, put where the loader puts them, in
      memory. */
  ghost predicate Readable(ps: seq<Phdr>, file: seq<byte>, base: nat, low: nat, length: nat) {
    forall i: nat {:trigger IsLoad(ps, i)} | IsLoad(ps, i) ::
      && low <= ps[i].vaddr < WRAP_64 && ps[i].offset + ps[i].filesz <= |file|
      && base + (ps[i].vaddr - low) + ps[i].filesz <= length
  }

  /** Does the file part of segment i go over address a? */
  predicate Lands(ps: seq<Phdr>, i: nat, base: nat, low: nat, a: nat) {
    IsLoad(ps, i) && low <= ps[i].vaddr && base + (ps[i].vaddr - low) <= a < base + (ps[i].vaddr - low) + ps[i].filesz
  }

  /** Byte a after the first n segments were copied over before: that of the last one that
      goes over it. */
  function Copied(ps: seq<Phdr>, n: nat, file: seq<byte>, base: nat, low: nat, before: seq<byte>, a: nat): byte
    requires n <= |ps| && a < |before|
    requires forall i: nat {:trigger IsLoad(ps, i)} | IsLoad(ps, i) :: ps[i].offset + ps[i].filesz <= |file|
  {
    if n == 0 then before[a]
    else if Lands(ps, n - 1, base, low, a) then
      assert IsLoad(ps, n - 1);
      file[ps[n - 1].offset + (a - (base + (ps[n - 1].vaddr - low)))]
    else Copied(ps, n - 1, file, base, low, before, a)
  }

  /** The copy loop (main.c:213-224). */
  method CopySegments(ps: seq<Phdr>, file: seq<byte>, memory: array<byte>, base: nat, low: nat)
    requires Readable(ps, file, base, low, memory.Length)
    modifies memory
    ensures forall a | 0 <= a < memory.Length :: memory[a] == Copied(ps, |ps|, file, base, low, old(memory[..]), a)
  {
    ghost var before := memory[..];
    for i := 0 to |ps|
      invariant forall a | 0 <= a < memory.Length :: memory[a] == Copied(ps, i, file, base, low, before, a)
    {
      if ps[i].kind == PT_LOAD {
        assert IsLoad(ps, i);
        if ps[i].filesz > 0 {
          ReadBytes(file, ps[i].offset, ps[i].filesz, memory, base + (ps[i].vaddr - low));
        }
      }
    }
  }

  /** Memory with n zeros from base on. */
  ghost function ZeroedAt(memory: seq<byte>, base: nat, n: nat): (z: seq<byte>)
    ensures |z| == |memory|
  {
    seq(|memory|, a requires 0 <= a < |memory| => if base <= a < base + n then 0 else memory[a])
  }

  /** load_kernel_file from the bounds to the copies (main.c:163-224), into pages allocated
      at base. */
  method LoadKernel(ps: seq<Phdr>, file: seq<byte>, memory: array<byte>, base: nat) returns (ok: bool, size: nat)
    requires forall i: nat {:trigger IsLoad(ps, i)} | IsLoad(ps, i) ::
        ps[i].vaddr < WRAP_64 && ps[i].offset + ps[i].filesz <= |file|
    requires Lowest(ps, |ps|) < Highest(ps, |ps|) ==>
               base + ImagePages(ps) * PAGE <= memory.Length
                 && Readable(ps, file, base, Lowest(ps, |ps|), memory.Length)
    modifies memory
    ensures ok <==> Lowest(ps, |ps|) < Highest(ps, |ps|)
    ensures ok <==> Loadable(ps)
    ensures !ok ==> size == 0 && memory[..] == old(memory[..])
    ensures ok ==> size == ImagePages(ps) * PAGE
    // every byte is that of the last segment whose file part goes over it, or a zero in the image, or as before
    ensures ok ==> forall a | 0 <= a < memory.Length ::
                     memory[a] == Copied(ps, |ps|, file, base, Lowest(ps, |ps|), ZeroedAt(old(memory[..]), base, size),
                                         a)
    // for segments as the ELF specification wants them all of this is in the allocated pages
    ensures ok && WellFormed(ps, file) ==> Loaded(memory[..], ps, file, base, Lowest(ps, |ps|))
    ensures ok && WellFormed(ps, file) ==>
              forall a | 0 <= a < memory.Length && !(base <= a < base + size) :: memory[a] == old(memory[a])
  {
    var low, high := FindBounds(ps);
    LoadableIff(ps);
    if low >= high {
      return false, 0;
    }
    size := (high - low + 0xFFF) / PAGE * PAGE;
    ghost var before := memory[..];
    ZeroBytes(memory, base, size);
    ghost var zeroed := memory[..];
    assert zeroed == ZeroedAt(before, base, size);
    CopySegments(ps, file, memory, base, low);
    ok := true;
    if WellFormed(ps, file) {
      LoadedAll(ps, file, base, before, size, memory[..]);
    }
  }

  /** The image is complete, and nothing outside it has changed. */
  lemma LoadedAll(ps: seq<Phdr>, file: seq<byte>, base: nat, before: seq<byte>, size: nat, after: seq<byte>)
    requires WellFormed(ps, file) && Lowest(ps, |ps|) < Highest(ps, |ps|)
    requires size == ImagePages(ps) * PAGE && base + size <= |before| == |after|
    requires forall a | 0 <= a < |after| ::
               after[a] == Copied(ps, |ps|, file, base, Lowest(ps, |ps|), ZeroedAt(before, base, size), a)
    ensures Loaded(after, ps, file, base, Lowest(ps, |ps|))
    ensures forall a | 0 <= a < |after| && !(base <= a < base + size) :: after[a] == before[a]
  {
    var low, zeroed := Lowest(ps, |ps|), ZeroedAt(before, base, size);
    forall i: nat, v: nat | InSegment(ps, i, v)
      ensures low <= v && base + (v - low) < |after| && after[base + (v - low)] == SegmentByte(ps[i], file, v)
    {
      BoundsHold(ps, |ps|, i);
      CopiedIs(ps, |ps|, file, base, low, zeroed, i, v);
    }
    forall a | 0 <= a < |after| && !(base <= a < base + size) ensures after[a] == before[a] {
      CopiedNot(ps, |ps|, file, base, size, zeroed, a);
    }
  }

  lemma {:induction false} CopiedIs(ps: seq<Phdr>, n: nat, file: seq<byte>, base: nat, low: nat, zeroed: seq<byte>,
                                    i: nat, v: nat)
    requires WellFormed(ps, file) && n <= |ps| && InSegment(ps, i, v) && low <= ps[i].vaddr
    requires base + (v - low) < |zeroed| && zeroed[base + (v - low)] == 0
    ensures Copied(ps, n, file, base, low, zeroed, base + (v - low)) == if i < n then SegmentByte(ps[i], file, v) else 0
  {
    if n > 0 {
      CopiedIs(ps, n - 1, file, base, low, zeroed, i, v);
      assert IsLoad(ps, n - 1) && n - 1 != i ==>
          ps[i].vaddr + ps[i].memsz <= ps[n - 1].vaddr || ps[n - 1].vaddr + ps[n - 1].memsz <= ps[i].vaddr;
    }
  }

  lemma {:induction false} CopiedNot(ps: seq<Phdr>, n: nat, file: seq<byte>, base: nat, size: nat, zeroed: seq<byte>,
                                     a: nat)
    requires WellFormed(ps, file) && n <= |ps| && Lowest(ps, |ps|) < Highest(ps, |ps|) && size == ImagePages(ps) * PAGE
    requires a < |zeroed| && !(base <= a < base + size)
    ensures Copied(ps, n, file, base, Lowest(ps, |ps|), zeroed, a) == zeroed[a]
  {
    if n > 0 {
      CopiedNot(ps, n - 1, file, base, size, zeroed, a);
      if IsLoad(ps, n - 1) {
        BoundsHold(ps, |ps|, n - 1);
      }
    }
  }

  // ---------------------------------------------------------------- image and tables in one memory

  /** The little-endian number in n bytes. */
  function Word(b: seq<byte>, at: nat, n: nat): nat
    requires at + n <= |b|
    decreases n
  {
    if n == 0 then 0 else b[at] + 0x100 * Word(b, at + 1, n - 1)
  }

  lemma {:induction false} WordBytes(b: seq<byte>, b': seq<byte>, at: nat, n: nat, k: nat)
    requires at + n <= |b| && at + n <= |b'| && Word(b, at, n) == Word(b', at, n) && k < n
    ensures b[at + k] == b'[at + k]
    decreases n
  {
    if k > 0 {
      WordBytes(b, b', at + 1, n - 1, k - 1);
    }
  }

  ghost predicate EntryBytes(b: seq<byte>, mem: Memory, f: nat, i: nat) {
    f * PAGE + 8 * i + 8 <= |b| && Word(b, f * PAGE + 8 * i, 8) == EntryWord(Get(mem, f, i))
  }

  /** The bytes b are those of the words of mem. */
  ghost predicate InBytes(b: seq<byte>, mem: Memory) {
    forall f: nat, i: nat {:trigger EntryBytes(b, mem, f, i)} | f < |mem| && i < ENTRIES :: EntryBytes(b, mem, f, i)
  }

  lemma WordOfByte(a: nat)
    ensures a % PAGE / 8 < ENTRIES && a == a / PAGE * PAGE + 8 * (a % PAGE / 8) + a % PAGE % 8
  {
  }

  /** A byte of a frame whose words did not change. */
  lemma SameByte(b: seq<byte>, mem: Memory, b': seq<byte>, mem': Memory, a: nat)
    requires InBytes(b, mem) && InBytes(b', mem') && |mem'| == |mem| && a / PAGE < |mem|
    requires forall i: nat {:trigger Get(mem', a / PAGE, i)} :: Get(mem', a / PAGE, i) == Get(mem, a / PAGE, i)
    ensures a < |b| && a < |b'| && b'[a] == b[a]
  {
    var f, i := a / PAGE, a % PAGE / 8;
    WordOfByte(a);
    assert EntryBytes(b, mem, f, i) && EntryBytes(b', mem', f, i);
    hide Word, EntryWord, InBytes;
    WordBytes(b, b', f * PAGE + 8 * i, 8, a % PAGE % 8);
  }

  /** Loader and page tables agree, in one memory: after the image was loaded into pages at
      base, and the tables were made in twelve other pages, the tables lead from every
      virtual address of a segment to the byte the ELF file gives for it, or to a zero past
      the file part. */
  lemma KernelByteAtVirtualAddress(b: seq<byte>, mem: Memory, b': seq<byte>, mem': Memory, ps: seq<Phdr>,
                                   file: seq<byte>, base: nat, pt: nat, fbBase: nat, i: nat, v: nat)
    requires WellFormed(ps, file) && Lowest(ps, |ps|) == KERNEL_TEXT < Highest(ps, |ps|) <= KERNEL_VIRT + GB
    // memory after loading, in bytes and in words
    requires Loaded(b, ps, file, base, KERNEL_TEXT) && base % PAGE == 0 && InBytes(b, mem)
    // and after the tables were made in other pages
    requires HasTables(mem', pt, base, fbBase) && InBytes(b', mem') && |mem'| == |mem|
    requires forall f: nat, j: nat {:trigger Get(mem', f, j)} | !(pt <= f < pt + 12) ::
        Get(mem', f, j) == Get(mem, f, j)
    requires base + ImagePages(ps) * PAGE <= |mem| * PAGE
    requires base + ImagePages(ps) * PAGE <= pt * PAGE || (pt + 12) * PAGE <= base
    requires InSegment(ps, i, v)
    ensures var pa := Translate(mem', pt, v); pa < |b'| && b'[pa] == SegmentByte(ps[i], file, v)
  {
    BoundsHold(ps, |ps|, i);
    KernelMap(mem', pt, base, fbBase, v);
    var pa := base + (v - KERNEL_TEXT);
    hide HasTables, InBytes;
    assert base <= pa < base + ImagePages(ps) * PAGE;
    SameByte(b, mem, b', mem', pa);
  }
}

/** Page-table entries and 4-level translation (kernel/mm/vmm.h, kernel/mm/vmm.c:255-274).

    An entry is the 64-bit word split into its fields: the frame number in bits 12-51 and
    the flag bits. EntryWord says which word an entry stands for, and the lemmas of
    EntryBits justify reading the C bit operations as operations on the fields. */
module Paging {
  import opened Basics

  const PAGE := 0x1000
  const PAGE_2M := 0x20_0000
  const ENTRIES := 512

  /** The flag bits the code looks at, and the other twenty bits outside 12-51. */
  datatype Flags = Flags(present: bool, writable: bool, user: bool, huge: bool, rest: nat)

  datatype Pte = Pte(frame: nat, flags: Flags)

  const NO_FLAGS := Flags(false, false, false, false, 0)
  const ZERO := Pte(0, NO_FLAGS)

  /** phys | PTE_PRESENT | PTE_WRITABLE | (flags & PTE_USER). */
  function TableEntry(frame: nat, flags: Flags): Pte {
    Pte(frame, Flags(true, true, flags.user, false, 0))
  }

  /** (pa & PAGE_MASK_4K) | flags | PTE_PRESENT. */
  function LeafEntry(pa: nat, flags: Flags): Pte {
    Pte(pa / PAGE, flags.(present := true))
  }

  /** The word an entry stands for, given that its fields fit. */
  function EntryWord(e: Pte): nat {
    e.frame * PAGE + LowBits(e.flags)
    + e.flags.rest / 0x100 * 0x10_0000_0000_0000
  }

  /** Bits 0-11: the four named flags and bits 3-6 and 8-11, the low byte of rest. */
  function LowBits(f: Flags): nat {
    (if f.present then 1 else 0) + (if f.writable then 2 else 0) + (if f.user then 4 else 0)
    + (if f.huge then 0x80 else 0) + f.rest % 0x10 * 8 + f.rest / 0x10 % 0x10 * 0x100
  }

  predicate Fits(e: Pte) {
    e.frame < 0x100_0000_0000 && e.flags.rest < 0x10_0000
  }

  /** No two entries stand for the same word. */
  lemma EntryWordInjective(a: Pte, b: Pte)
    requires Fits(a) && Fits(b) && EntryWord(a) == EntryWord(b)
    ensures a == b
  {
    LowBitsFit(a.flags);
    LowBitsFit(b.flags);
    WordParts(a.frame * PAGE + LowBits(a.flags), a.flags.rest / 0x100, b.frame * PAGE + LowBits(b.flags),
              b.flags.rest / 0x100);
    assert a.frame == b.frame;
    FlagBits(a.flags);
    FlagBits(b.flags);
  }

  lemma WordParts(x: nat, hi: nat, x': nat, hi': nat)
    requires x < 0x10_0000_0000_0000 && x' < 0x10_0000_0000_0000
    requires x + hi * 0x10_0000_0000_0000 == x' + hi' * 0x10_0000_0000_0000
    ensures x == x' && hi == hi'
  {
  }

  lemma LowBitsFit(f: Flags)
    ensures LowBits(f) < PAGE
  {
  }

  /** The low bits and the high bits of rest give back the flags. */
  lemma FlagBits(f: Flags)
    ensures var low := LowBits(f);
      && f.present == (low % 2 == 1) && f.writable == (low / 2 % 2 == 1) && f.user == (low / 4 % 2 == 1)
      && f.huge == (low / 0x80 % 2 == 1)
      && f.rest == f.rest / 0x100 * 0x100 + low / 0x100 * 0x10 + low / 8 % 0x10
  {
    Digits(if f.present then 1 else 0, if f.writable then 1 else 0, if f.user then 1 else 0,
           f.rest % 0x10, if f.huge then 1 else 0, f.rest / 0x10 % 0x10);
    RestDigits(f.rest);
  }

  lemma RestDigits(r: nat)
    ensures r == r / 0x100 * 0x100 + r / 0x10 % 0x10 * 0x10 + r % 0x10
  {
    assert r / 0x100 == r / 0x10 / 0x10;
  }

  lemma Digits(p: nat, w: nat, u: nat, m: nat, h: nat, k: nat)
    requires p < 2 && w < 2 && u < 2 && m < 0x10 && h < 2 && k < 0x10
    ensures var low := p + w * 2 + u * 4 + m * 8 + h * 0x80 + k * 0x100;
      low % 2 == p && low / 2 % 2 == w && low / 4 % 2 == u && low / 8 % 0x10 == m && low / 0x80 % 2 == h
        && low / 0x100 == k
  {
    var low := p + w * 2 + u * 4 + m * 8 + h * 0x80 + k * 0x100;
    assert low / 2 == w + u * 2 + m * 4 + h * 0x40 + k * 0x80;
    assert low / 4 == u + m * 2 + h * 0x20 + k * 0x40;
    assert low / 8 == m + h * 0x10 + k * 0x20;
    assert low / 0x80 == h + k * 2;
  }

  // ---------------------------------------------------------------- physical memory

  /** Memory as frames of 512 words. */
  type Memory = seq<seq<Pte>>

  ghost predicate WellSized(mem: Memory) {
    forall f | 0 <= f < |mem| :: |mem[f]| == ENTRIES
  }

  /** Word i of frame f, or zero outside memory. */
  function Get(mem: Memory, f: nat, i: nat): Pte {
    if f < |mem| && i < |mem[f]| then mem[f][i] else ZERO
  }

  function Put(mem: Memory, f: nat, i: nat, e: Pte): Memory
    requires f < |mem| && i < |mem[f]|
  {
    mem[f := mem[f][i := e]]
  }

  function ZeroPage(): seq<Pte> {
    seq(ENTRIES, _ => ZERO)
  }

  function Zeroed(mem: Memory, f: nat): Memory
    requires f < |mem|
  {
    mem[f := ZeroPage()]
  }

  lemma GetPut(mem: Memory, f: nat, i: nat, e: Pte, g: nat, j: nat)
    requires WellSized(mem) && f < |mem| && i < ENTRIES
    ensures WellSized(Put(mem, f, i, e)) && |Put(mem, f, i, e)| == |mem|
    ensures Get(Put(mem, f, i, e), g, j) == if g == f && j == i then e else Get(mem, g, j)
  {
  }

  lemma PutSame(mem: Memory, f: nat, i: nat)
    requires f < |mem| && i < |mem[f]|
    ensures Put(mem, f, i, Get(mem, f, i)) == mem
  {
    assert mem[f][i := mem[f][i]] == mem[f];
  }

  lemma GetZeroed(mem: Memory, f: nat, g: nat, j: nat)
    requires WellSized(mem) && f < |mem|
    ensures WellSized(Zeroed(mem, f)) && |Zeroed(mem, f)| == |mem|
    ensures Get(Zeroed(mem, f), g, j) == if g == f then ZERO else Get(mem, g, j)
  {
  }

  // ---------------------------------------------------------------- addresses

  function I4(va: nat): nat { va / 0x80_0000_0000 % ENTRIES }
  function I3(va: nat): nat { va / 0x4000_0000 % ENTRIES }
  function I2(va: nat): nat { va / 0x20_0000 % ENTRIES }
  function I1(va: nat): nat { va / 0x1000 % ENTRIES }

  /** Both addresses go through the same four slots. */
  predicate SamePage(va: nat, va': nat) {
    I4(va) == I4(va') && I3(va) == I3(va') && I2(va) == I2(va') && I1(va) == I1(va')
  }

  /** The code ignores bits 48 and up, so pages are told apart by bits 12-47. */
  lemma SamePageIff(va: nat, va': nat)
    ensures SamePage(va, va') <==> va / PAGE % 0x10_0000_0000 == va' / PAGE % 0x10_0000_0000
  {
    IndexDigits(va);
    IndexDigits(va');
  }

  /** The four indices are the base-512 digits of the page number. */
  lemma IndexDigits(va: nat)
    ensures va / PAGE % 0x10_0000_0000 == ((I4(va) * ENTRIES + I3(va)) * ENTRIES + I2(va)) * ENTRIES + I1(va)
  {
    var n := va / 0x1000;
    assert va / 0x20_0000 == n / ENTRIES;
    assert va / 0x4000_0000 == va / 0x20_0000 / ENTRIES;
    assert va / 0x80_0000_0000 == va / 0x4000_0000 / ENTRIES;
    var q := va / 0x80_0000_0000;
    assert n == ((q * ENTRIES + I3(va)) * ENTRIES + I2(va)) * ENTRIES + I1(va);
    assert q == q / ENTRIES * ENTRIES + I4(va);
    var rest := ((I4(va) * ENTRIES + I3(va)) * ENTRIES + I2(va)) * ENTRIES + I1(va);
    assert n == q / ENTRIES * 0x10_0000_0000 + rest && rest < 0x10_0000_0000;
  }

  /** Bits 48-63 repeat bit 47. */
  predicate Canonical(va: nat) {
    va < 0x8000_0000_0000 || 0xFFFF_8000_0000_0000 <= va < 0x1_0000_0000_0000_0000
  }

  lemma SamePageCanonical(va: nat, va': nat)
    requires Canonical(va) && Canonical(va')
    ensures SamePage(va, va') <==> va / PAGE == va' / PAGE
  {
    SamePageIff(va, va');
    CanonicalPage(va);
    CanonicalPage(va');
  }

  lemma CanonicalPage(va: nat)
    requires Canonical(va)
    ensures var n := va / PAGE;
      && (n < 0x8_0000_0000 || 0xF_FFF8_0000_0000 <= n < 0x10_0000_0000_0000)
      && n % 0x10_0000_0000 == if n < 0x8_0000_0000 then n else n - 0xF_FFF0_0000_0000
  {
    var n := va / PAGE;
    if n >= 0x8_0000_0000 {
      assert n == 0xFFFF * 0x10_0000_0000 + (n - 0xF_FFF0_0000_0000);
    }
  }

  // ---------------------------------------------------------------- the walk

  /** The table behind slot i of table t. */
  function Child(mem: Memory, t: Option<nat>, i: nat): Option<nat> {
    if t.Some? && Get(mem, t.value, i).flags.present then Some(Get(mem, t.value, i).frame) else None
  }

  function PdptOf(mem: Memory, root: nat, va: nat): Option<nat> {
    Child(mem, Some(root), I4(va))
  }

  function PdOf(mem: Memory, root: nat, va: nat): Option<nat> {
    Child(mem, PdptOf(mem, root, va), I3(va))
  }

  /** The entry that either maps 2 MB or points to the last table. */
  function PdEntry(mem: Memory, root: nat, va: nat): Pte {
    var pd := PdOf(mem, root, va);
    if pd.Some? then Get(mem, pd.value, I2(va)) else ZERO
  }

  function PtOf(mem: Memory, root: nat, va: nat): Option<nat> {
    if PdEntry(mem, root, va).flags.huge then None else Child(mem, PdOf(mem, root, va), I2(va))
  }

  /** vmm_virt_to_phys (vmm.c:255-274): the physical address, or 0. */
  function Translate(mem: Memory, root: nat, va: nat): nat {
    var pd := PdEntry(mem, root, va);
    if !pd.flags.present then 0
    else if pd.flags.huge then pd.frame * PAGE + va % PAGE_2M
    else
      var e := Get(mem, pd.frame, I1(va));
      if !e.flags.present then 0 else e.frame * PAGE + va % PAGE
  }

  // ---------------------------------------------------------------- the tree

  /** Where a table stands in the tree: the slots that lead to it from the root. */
  datatype Path = Pml4 | Pdpt(i4: nat) | Pd(i4: nat, i3: nat) | Pt(i4: nat, i3: nat, i2: nat)

  /** The path of the table behind slot i of the table at p. */
  function Sub(p: Path, i: nat): Path
    requires !p.Pt?
  {
    match p
    case Pml4 => Pdpt(i)
    case Pdpt(i4) => Pd(i4, i)
    case Pd(i4, i3) => Pt(i4, i3, i)
  }

  /** Does entry e, in a table at p, point to another table? */
  predicate Points(p: Path, e: Pte) {
    e.flags.present && !p.Pt? && !(p.Pd? && e.flags.huge)
  }

  /** The tables form a tree of unshared tables: owner gives each table its path, and each
      pointer leads to a table whose path is that of the slot. */
  ghost predicate Tree(mem: Memory, root: nat, owner: map<nat, Path>) {
    && WellSized(mem)
    && root in owner && owner[root] == Pml4
    && (forall f | f in owner :: f < |mem|)
    && (forall f, i: nat {:trigger Get(mem, f, i)} | f in owner && i < ENTRIES && Points(owner[f], Get(mem, f, i)) ::
          PointsTo(owner, Get(mem, f, i).frame, Sub(owner[f], i)))
  }

  ghost predicate PointsTo(owner: map<nat, Path>, f: nat, p: Path) {
    f in owner && owner[f] == p
  }

  /** Every table the walk for va meets stands on the path of va. */
  lemma WalkOwned(mem: Memory, root: nat, owner: map<nat, Path>, va: nat)
    requires Tree(mem, root, owner)
    ensures var t := PdptOf(mem, root, va); t.Some? ==> PointsTo(owner, t.value, Pdpt(I4(va)))
    ensures var t := PdOf(mem, root, va); t.Some? ==> PointsTo(owner, t.value, Pd(I4(va), I3(va)))
    ensures var t := PtOf(mem, root, va); t.Some? ==> PointsTo(owner, t.value, Pt(I4(va), I3(va), I2(va)))
  {
    var e := Get(mem, root, I4(va));
    if e.flags.present {
      var e3 := Get(mem, e.frame, I3(va));
      if e3.flags.present {
        var e2 := Get(mem, e3.frame, I2(va));
      }
    }
  }

  /** Two memories that agree on all tables translate alike. */
  lemma TablesDecide(mem: Memory, mem': Memory, root: nat, owner: map<nat, Path>, va: nat)
    requires Tree(mem, root, owner)
    requires forall f, i: nat {:trigger Get(mem', f, i)} | f in owner && i < ENTRIES ::
        Get(mem', f, i) == Get(mem, f, i)
    ensures Translate(mem', root, va) == Translate(mem, root, va)
  {
    WalkOwned(mem, root, owner, va);
  }

  /** Memory after a zeroed frame n is hung into slot i of table t. */
  function Linked(mem: Memory, t: nat, i: nat, n: nat, e: Pte): Memory
    requires WellSized(mem) && t < |mem| && n < |mem| && i < ENTRIES
  {
    GetZeroed(mem, n, t, i);
    Put(Zeroed(mem, n), t, i, e)
  }

  lemma GetLinked(mem: Memory, t: nat, i: nat, n: nat, e: Pte, g: nat, j: nat)
    requires WellSized(mem) && t < |mem| && n < |mem| && i < ENTRIES
    ensures WellSized(Linked(mem, t, i, n, e)) && |Linked(mem, t, i, n, e)| == |mem|
    ensures Get(Linked(mem, t, i, n, e), g, j) ==
            if g == t && j == i then e else if g == n then ZERO else Get(mem, g, j)
  {
    GetZeroed(mem, n, t, i);
    GetZeroed(mem, n, g, j);
    GetPut(Zeroed(mem, n), t, i, e, g, j);
  }

  /** Hanging a zeroed frame that is not a table into an empty slot keeps the tree. */
  lemma LinkTree(mem: Memory, root: nat, owner: map<nat, Path>, t: nat, i: nat, n: nat, e: Pte)
    requires Tree(mem, root, owner) && t in owner && !owner[t].Pt? && i < ENTRIES
    requires n < |mem| && n !in owner && e.frame == n && e.flags.present && !e.flags.huge
    ensures Tree(Linked(mem, t, i, n, e), root, owner[n := Sub(owner[t], i)])
  {
    var mem' := Linked(mem, t, i, n, e);
    var owner' := owner[n := Sub(owner[t], i)];
    GetLinked(mem, t, i, n, e, t, i);
    forall f, j: nat | f in owner' && j < ENTRIES && Points(owner'[f], Get(mem', f, j))
      ensures PointsTo(owner', Get(mem', f, j).frame, Sub(owner'[f], j))
    {
      GetLinked(mem, t, i, n, e, f, j);
      if f in owner && !(f == t && j == i) {
        assert PointsTo(owner, Get(mem, f, j).frame, Sub(owner[f], j));
      }
    }
  }

  /** ... and changes no translation. */
  lemma LinkTranslates(mem: Memory, root: nat, owner: map<nat, Path>, t: nat, i: nat, n: nat, e: Pte, va: nat)
    requires Tree(mem, root, owner) && t in owner && !owner[t].Pt? && i < ENTRIES
    requires n < |mem| && n !in owner && e.frame == n && e.flags.present && !e.flags.huge
    requires !Get(mem, t, i).flags.present
    ensures Translate(Linked(mem, t, i, n, e), root, va) == Translate(mem, root, va)
  {
    var mem' := Linked(mem, t, i, n, e);
    WalkOwned(mem, root, owner, va);
    forall g, j: nat
      ensures Get(mem', g, j) == if g == t && j == i then e else if g == n then ZERO else Get(mem, g, j)
    {
      GetLinked(mem, t, i, n, e, g, j);
    }
  }

  /** Writing entry i of a last-level table keeps the tree. */
  lemma LeafTree(mem: Memory, root: nat, owner: map<nat, Path>, t: nat, i: nat, e: Pte)
    requires Tree(mem, root, owner) && t in owner && owner[t].Pt? && i < ENTRIES
    ensures Tree(Put(mem, t, i, e), root, owner)
  {
    var mem' := Put(mem, t, i, e);
    GetPut(mem, t, i, e, t, i);
    forall f, j: nat | f in owner && j < ENTRIES && Points(owner[f], Get(mem', f, j))
      ensures PointsTo(owner, Get(mem', f, j).frame, Sub(owner[f], j))
    {
      GetPut(mem, t, i, e, f, j);
    }
  }

  /** ... and changes the translation of exactly one page. */
  lemma LeafTranslates(mem: Memory, root: nat, owner: map<nat, Path>, va: nat, e: Pte, va': nat)
    requires Tree(mem, root, owner) && PtOf(mem, root, va).Some?
    ensures var pt := PtOf(mem, root, va).value; pt in owner && pt < |mem| && I1(va) < |mem[pt]|
    ensures Translate(Put(mem, PtOf(mem, root, va).value, I1(va), e), root, va') ==
            if SamePage(va, va') then (if e.flags.present then e.frame * PAGE + va' % PAGE else 0)
            else Translate(mem, root, va')
  {
    var t := PtOf(mem, root, va).value;
    WalkOwned(mem, root, owner, va);
    WalkOwned(mem, root, owner, va');
    var mem' := Put(mem, t, I1(va), e);
    forall g, j: nat ensures Get(mem', g, j) == if g == t && j == I1(va) then e else Get(mem, g, j) {
      GetPut(mem, t, I1(va), e, g, j);
    }
  }

  // ---------------------------------------------------------------- a 2 MB page read as a table

  /** The same 2 MB slot. */
  predicate SameSlot(va: nat, va': nat) {
    I4(va') == I4(va) && I3(va') == I3(va) && I2(va') == I2(va)
  }

  /** The path of va ends in a 2 MB page. */
  predicate OnLarge(mem: Memory, root: nat, va: nat) {
    PdEntry(mem, root, va).flags.present && PdEntry(mem, root, va).flags.huge
  }

  /** A write that is lost where there is no memory. */
  function PutIn(mem: Memory, f: nat, i: nat, e: Pte): (m: Memory)
    ensures |m| == |mem|
  {
    if f < |mem| && i < |mem[f]| then Put(mem, f, i, e) else mem
  }

  lemma GetPutIn(mem: Memory, f: nat, i: nat, e: Pte, g: nat, j: nat)
    ensures Get(PutIn(mem, f, i, e), g, j) == if g == f && j == i && f < |mem| && i < |mem[f]| then e
        else Get(mem, g, j)
  {
  }

  /** Memory after the flag of the 2 MB page at va was cleared (vmm.c:219). */
  function Reread(mem: Memory, root: nat, va: nat): Memory {
    var e := PdEntry(mem, root, va);
    match PdOf(mem, root, va)
    case None => mem
    case Some(pd) => PutIn(mem, pd, I2(va), e.(flags := e.flags.(huge := false)))
  }

  /** Memory after vmm_map_page at a 2 MB page: its first 4 KB are taken for a table, and the
      entry is written there (vmm.c:217-224). */
  function MappedOver(mem: Memory, root: nat, va: nat, e: Pte): Memory {
    PutIn(Reread(mem, root, va), PdEntry(mem, root, va).frame, I1(va), e)
  }

  lemma RereadWords(mem: Memory, root: nat, owner: map<nat, Path>, va: nat, g: nat, j: nat)
    requires Tree(mem, root, owner) && OnLarge(mem, root, va)
    ensures PdOf(mem, root, va).Some? && PointsTo(owner, PdOf(mem, root, va).value, Pd(I4(va), I3(va)))
    ensures var e := PdEntry(mem, root, va);
      Get(Reread(mem, root, va), g, j) ==
        if g == PdOf(mem, root, va).value && j == I2(va) then e.(flags := e.flags.(huge := false)) else Get(mem, g, j)
  {
    WalkOwned(mem, root, owner, va);
    GetPutIn(mem, PdOf(mem, root, va).value, I2(va),
             PdEntry(mem, root, va).(flags := PdEntry(mem, root, va).flags.(huge := false)), g, j);
  }

  /** Clearing the flag makes the code read the data of the page as its table: an address of
      the page keeps its translation exactly when the data word for it happens to be an
      entry for that very frame. All other addresses keep theirs. */
  lemma LargeReread(mem: Memory, root: nat, owner: map<nat, Path>, va: nat, va': nat)
    requires Tree(mem, root, owner) && OnLarge(mem, root, va)
    ensures var mem', e := Reread(mem, root, va), PdEntry(mem, root, va);
      var word := Get(mem', e.frame, I1(va'));
      if SameSlot(va, va') then
        && Translate(mem, root, va') == (e.frame + I1(va')) * PAGE + va' % PAGE
        && (Translate(mem', root, va') == Translate(mem, root, va') <==>
            if word.flags.present then word.frame == e.frame + I1(va') else e.frame + I1(va') == 0 && va' % PAGE == 0)
      else Translate(mem', root, va') == Translate(mem, root, va')
  {
    RereadWords(mem, root, owner, va, 0, 0);
    WalkOwned(mem, root, owner, va');
    InLarge(va');
    var mem', e := Reread(mem, root, va), PdEntry(mem, root, va);
    var pd := PdOf(mem, root, va).value;
    forall g, j: nat
      ensures Get(mem', g, j) == if g == pd && j == I2(va) then e.(flags := e.flags.(huge := false)) else Get(mem, g, j)
    {
      RereadWords(mem, root, owner, va, g, j);
    }
    hide Reread, Get;
  }

  /** The whole call at a 2 MB page whose first frame is memory but no table: va goes where it
      was meant to go, every other address of the 2 MB goes where the data of the page says,
      and the rest keeps its translation. */
  lemma MappedOverTranslates(mem: Memory, root: nat, owner: map<nat, Path>, va: nat, e: Pte, va': nat)
    requires Tree(mem, root, owner) && OnLarge(mem, root, va)
    requires PdEntry(mem, root, va).frame < |mem| && PdEntry(mem, root, va).frame !in owner
    ensures var word := if SamePage(va, va') then e else Get(mem, PdEntry(mem, root, va).frame, I1(va'));
      Translate(MappedOver(mem, root, va, e), root, va') ==
        if !SameSlot(va, va') then Translate(mem, root, va')
        else if word.flags.present then word.frame * PAGE + va' % PAGE else 0
  {
    RereadWords(mem, root, owner, va, 0, 0);
    WalkOwned(mem, root, owner, va');
    var mem1, mem2, large := Reread(mem, root, va), MappedOver(mem, root, va, e), PdEntry(mem, root, va);
    var pd := PdOf(mem, root, va).value;
    forall g, j: nat
      ensures Get(mem2, g, j) == if g == large.frame && j == I1(va) then e
                                 else if g == pd && j == I2(va) then large.(flags := large.flags.(huge := false))
                                   else Get(mem, g, j)
    {
      RereadWords(mem, root, owner, va, g, j);
      GetPutIn(mem1, large.frame, I1(va), e, g, j);
    }
    hide Reread, MappedOver, Get;
  }

  lemma InLarge(va: nat)
    ensures va % PAGE_2M == I1(va) * PAGE + va % PAGE
  {
    assert va / PAGE / ENTRIES == va / PAGE_2M;
  }
}

/** The C bit operations on page-table words (kernel/mm/vmm.h:45-81) are the operations on
    Paging's entry records: reading, testing and making an entry agree with EntryWord. */
module EntryBits {
  import opened Paging

  // ---------------------------------------------------------------- & and | on numbers

  /** Bitwise and. */
  function And(a: nat, b: nat): (r: nat)
    ensures r <= a && r <= b
  {
    if a == 0 || b == 0 then 0 else 2 * And(a / 2, b / 2) + if a % 2 == 1 && b % 2 == 1 then 1 else 0
  }

  /** Bitwise or. */
  function Or(a: nat, b: nat): (r: nat)
    ensures r >= a && r >= b
  {
    if a == 0 then b else if b == 0 then a else 2 * Or(a / 2, b / 2) + if a % 2 == 1 || b % 2 == 1 then 1 else 0
  }

  function Pow2(k: nat): (p: nat)
    ensures p > 0
  {
    if k == 0 then 1 else 2 * Pow2(k - 1)
  }

  lemma {:induction false} PowSum(j: nat, k: nat)
    ensures Pow2(j + k) == Pow2(j) * Pow2(k)
  {
    if j > 0 {
      PowSum(j - 1, k);
      assert 2 * Pow2(j - 1) * Pow2(k) == 2 * (Pow2(j - 1) * Pow2(k));
    }
  }

  /** The powers that the masks need. */
  lemma Powers()
    ensures Pow2(1) == 2 && Pow2(2) == 4 && Pow2(7) == 0x80 && Pow2(8) == 0x100 && Pow2(12) == 0x1000
    ensures Pow2(40) == 0x100_0000_0000 && Pow2(56) == 0x100_0000_0000_0000
  {
    assert Pow2(1) == 2 && Pow2(2) == 4 && Pow2(4) == 0x10;
    assert Pow2(7) == 0x80 && Pow2(8) == 0x100;
    hide Pow2;
    PowSum(8, 4);
    PowSum(8, 8);
    PowSum(16, 16);
    PowSum(32, 8);
    PowSum(40, 16);
  }

  lemma Halves(x: nat, y: nat, p: nat)
    ensures (x * (2 * p) + y) / 2 == x * p + y / 2 && (x * (2 * p) + y) % 2 == y % 2
  {
    assert x * (2 * p) == 2 * (x * p);
  }

  lemma Doubled(x: nat, p: nat)
    ensures x * (2 * p) == 2 * (x * p)
  {
  }

  lemma AndStep(a: nat, b: nat)
    ensures And(a, b) == 2 * And(a / 2, b / 2) + if a % 2 == 1 && b % 2 == 1 then 1 else 0
  {
  }

  lemma OrStep(a: nat, b: nat)
    ensures Or(a, b) == 2 * Or(a / 2, b / 2) + if a % 2 == 1 || b % 2 == 1 then 1 else 0
  {
  }

  /** The digits below bit k and those from it on are combined on their own. */
  lemma {:induction false} AndSplit(x: nat, y: nat, z: nat, w: nat, k: nat)
    requires y < Pow2(k) && w < Pow2(k)
    ensures And(x * Pow2(k) + y, z * Pow2(k) + w) == And(x, z) * Pow2(k) + And(y, w)
  {
    if k > 0 {
      hide And;
      var p := Pow2(k - 1);
      Halves(x, y, p);
      Halves(z, w, p);
      AndStep(x * (2 * p) + y, z * (2 * p) + w);
      AndStep(y, w);
      AndSplit(x, y / 2, z, w / 2, k - 1);
      Doubled(And(x, z), p);
    }
  }

  lemma {:induction false} OrSplit(x: nat, y: nat, z: nat, w: nat, k: nat)
    requires y < Pow2(k) && w < Pow2(k)
    ensures Or(x * Pow2(k) + y, z * Pow2(k) + w) == Or(x, z) * Pow2(k) + Or(y, w)
  {
    if k > 0 {
      hide Or;
      var p := Pow2(k - 1);
      Halves(x, y, p);
      Halves(z, w, p);
      OrStep(x * (2 * p) + y, z * (2 * p) + w);
      OrStep(y, w);
      OrSplit(x, y / 2, z, w / 2, k - 1);
      Doubled(Or(x, z), p);
    }
  }

  /** A mask of k ones keeps the k lowest digits. */
  lemma {:induction false} AndOnes(x: nat, k: nat)
    requires x < Pow2(k)
    ensures And(x, Pow2(k) - 1) == x
  {
    if k > 0 {
      AndStep(x, Pow2(k) - 1);
      AndOnes(x / 2, k - 1);
    }
  }

  /** A single bit keeps one digit. */
  lemma AndBit(x: nat, y: nat, k: nat)
    requires y < Pow2(k)
    ensures And(x * Pow2(k) + y, Pow2(k)) == x % 2 * Pow2(k)
  {
    AndStep(x, 1);
    AndZero(x / 2);
    AndZero(y);
    hide And;
    AndSplit(x, y, 1, 0, k);
  }

  // ---------------------------------------------------------------- entries

  const PRESENT := 1
  const WRITABLE := 2
  const USER := 4
  const HUGE := 0x80

  /** ~(PAGE_SIZE_4K - 1), the mask of PTE_PHYS_ADDR, and ~PTE_HUGE, in 64 bits. */
  const MASK_4K := 0xFFFF_FFFF_FFFF_F000
  const PHYS := 0x000F_FFFF_FFFF_F000
  const NOT_HUGE := 0xFFFF_FFFF_FFFF_FF7F

  /** The word of an entry in the three parts its masks cut it into. */
  lemma Parts(e: Pte)
    requires Fits(e)
    ensures LowBits(e.flags) < PAGE && e.flags.rest / 0x100 < 0x1000
    ensures EntryWord(e) == (e.flags.rest / 0x100 * 0x100_0000_0000 + e.frame) * PAGE + LowBits(e.flags)
  {
    LowBitsFit(e.flags);
  }

  /** And with a mask over the address field keeps the frame. */
  lemma PhysAnd(hi: nat, frame: nat, low: nat)
    requires frame < 0x100_0000_0000 && low < PAGE
    ensures And((hi * 0x100_0000_0000 + frame) * PAGE + low, PHYS) == frame * PAGE
  {
    hide And, Pow2;
    Powers();
    AndSplit(hi * 0x100_0000_0000 + frame, low, 0xFF_FFFF_FFFF, 0, 12);
    AndSplit(hi, frame, 0, 0xFF_FFFF_FFFF, 40);
    AndOnes(frame, 40);
    AndZero(low);
    AndZero(hi);
  }

  lemma AndZero(x: nat)
    ensures And(x, 0) == 0
  {
  }

  /** PTE_PHYS_ADDR gives the address of the frame. */
  lemma PhysAddr(e: Pte)
    requires Fits(e)
    ensures And(EntryWord(e), PHYS) == e.frame * PAGE
  {
    Parts(e);
    PhysAnd(e.flags.rest / 0x100, e.frame, LowBits(e.flags));
  }

  /** The tests for a present and for a large page read these flags. */
  lemma FlagTests(e: Pte)
    requires Fits(e)
    ensures And(EntryWord(e), PRESENT) != 0 <==> e.flags.present
    ensures And(EntryWord(e), HUGE) != 0 <==> e.flags.huge
  {
    Parts(e);
    FlagBits(e.flags);
    hide And, Pow2, LowBits, EntryWord;
    var low := LowBits(e.flags);
    WordDigits(e.flags.rest / 0x100 * 0x100_0000_0000 + e.frame, low);
    Powers();
    AndBit(EntryWord(e), 0, 0);
    AndBit(EntryWord(e) / 0x80, EntryWord(e) % 0x80, 7);
  }

  lemma WordDigits(x: nat, low: nat)
    requires low < PAGE
    ensures var w := x * PAGE + low; w % 2 == low % 2 && w / 0x80 % 2 == low / 0x80 % 2
  {
    Digit(x * 0x1000, low, 1);
    Digit(x * 0x20, low, 0x80);
  }

  /** An even number of units in front leaves the digit. */
  lemma Digit(x: nat, low: nat, unit: nat)
    requires x % 2 == 0 && (unit == 1 || unit == 0x80)
    ensures (x * unit + low) / unit % 2 == low / unit % 2
  {
    assert (x * unit + low) / unit == x + low / unit;
  }

  // ---------------------------------------------------------------- making an entry

  /** A single bit is set. */
  lemma OrBit(x: nat, y: nat, k: nat)
    requires y < Pow2(k)
    ensures Or(x * Pow2(k) + y, Pow2(k)) == (if x % 2 == 1 then x else x + 1) * Pow2(k) + y
  {
    OrSplit(x, y, 1, 0, k);
    OrStep(x, 1);
  }

  /** The word of a flags argument, which has no address. */
  function FlagWord(f: Flags): nat {
    EntryWord(Pte(0, f))
  }

  lemma OrFrame(frame: nat, hi: nat, low: nat)
    requires frame < 0x100_0000_0000 && low < PAGE
    ensures Or(frame * PAGE, hi * 0x10_0000_0000_0000 + low) == hi * 0x10_0000_0000_0000 + frame * PAGE + low
  {
    hide Or, Pow2;
    Powers();
    OrSplit(frame, 0, hi * 0x100_0000_0000, low, 12);
    OrSplit(0, frame, hi, 0, 40);
    OrZero(low);
    OrZero(hi);
    OrZero(frame);
  }

  lemma OrZero(x: nat)
    ensures Or(x, 0) == x && Or(0, x) == x
  {
  }

  lemma AndMask(pa: nat)
    requires pa < 0x10_0000_0000_0000
    ensures And(pa, MASK_4K) == pa / PAGE * PAGE
  {
    hide And, Pow2;
    Powers();
    PowSum(40, 12);
    AndSplit(pa / PAGE, pa % PAGE, 0xF_FFFF_FFFF_FFFF, 0, 12);
    AndOnes(pa / PAGE, 52);
    AndZero(pa % PAGE);
  }

  lemma OrPresent(w: nat)
    ensures Or(w, PRESENT) == if w % 2 == 1 then w else w + 1
  {
    OrBit(w, 0, 0);
  }

  /** Setting the present bit in the word of an entry. */
  lemma MadePresent(frame: nat, f: Flags)
    requires frame < 0x100_0000_0000 && f.rest < 0x10_0000
    ensures Or(EntryWord(Pte(frame, f)), PRESENT) == EntryWord(Pte(frame, f.(present := true)))
  {
    var w := EntryWord(Pte(frame, f));
    assert EntryWord(Pte(frame, f.(present := true))) == if f.present then w else w + 1;
    Parts(Pte(frame, f));
    FlagBits(f);
    hide LowBits, EntryWord;
    WordDigits(f.rest / 0x100 * 0x100_0000_0000 + frame, LowBits(f));
    OrPresent(w);
  }

  /** (pa & PAGE_MASK_4K) | flags | PTE_PRESENT is the word of the entry for the page. */
  lemma LeafWord(pa: nat, f: Flags)
    requires pa < 0x10_0000_0000_0000 && f.rest < 0x10_0000
    ensures Or(Or(And(pa, MASK_4K), FlagWord(f)), PRESENT) == EntryWord(LeafEntry(pa, f))
  {
    LowBitsFit(f);
    hide Or, And, LowBits;
    AndMask(pa);
    OrFrame(pa / PAGE, f.rest / 0x100, LowBits(f));
    MadePresent(pa / PAGE, f);
  }

  /** phys | PTE_PRESENT | PTE_WRITABLE | (flags & PTE_USER) is the word of the entry for a
      table at phys. */
  lemma TableWord(frame: nat, f: Flags)
    requires f.rest < 0x10_0000
    ensures Or(Or(Or(frame * PAGE, PRESENT), WRITABLE), And(FlagWord(f), USER)) == EntryWord(TableEntry(frame, f))
  {
    assert EntryWord(TableEntry(frame, f)) == frame * PAGE + 3 + if f.user then 4 else 0;
    hide Or, And, LowBits, EntryWord, FlagWord;
    UserBit(f);
    OrTwo(frame);
    OrFour(frame);
    OrZero(frame * PAGE + 3);
  }

  lemma OrTwo(frame: nat)
    ensures Or(Or(frame * PAGE, PRESENT), WRITABLE) == frame * PAGE + 3
  {
    hide Or, Pow2;
    Powers();
    OrPresent(frame * PAGE);
    OrBit(frame * 0x800, 1, 1);
  }

  lemma OrFour(frame: nat)
    ensures Or(frame * PAGE + 3, USER) == frame * PAGE + 7
  {
    hide Or, Pow2;
    Powers();
    OrBit(frame * 0x400, 3, 2);
  }

  lemma UserBit(f: Flags)
    requires f.rest < 0x10_0000
    ensures And(FlagWord(f), USER) == if f.user then 4 else 0
  {
    var hi, low := f.rest / 0x100, LowBits(f);
    assert FlagWord(f) == 8 * (hi * 0x2_0000_0000_0000) + low;
    assert f.user == (low / 4 % 2 == 1) by {
      FlagBits(f);
    }
    hide And, LowBits, EntryWord, FlagWord;
    AndFour(hi * 0x2_0000_0000_0000, low);
  }

  lemma AndFour(x: nat, low: nat)
    ensures And(8 * x + low, USER) == low / 4 % 2 * 4
  {
    hide And, Pow2;
    Powers();
    AndBit(2 * x + low / 4, low % 4, 2);
  }

  /** The bootloader's base | 0x83 is the word of a present, writable 2 MB page. */
  lemma LargeWord(frame: nat)
    ensures Or(frame * PAGE, 0x83) == EntryWord(Pte(frame, Flags(true, true, false, true, 0)))
  {
    hide Or, Pow2;
    Powers();
    OrSplit(frame, 0, 0, 0x83, 12);
    OrZero(frame);
    OrZero(0x83);
  }

  /** &= ~PTE_HUGE clears the flag and keeps all else. */
  lemma ClearHuge(e: Pte)
    requires Fits(e)
    ensures And(EntryWord(e), NOT_HUGE) == EntryWord(e.(flags := e.flags.(huge := false)))
  {
    Parts(e);
    FlagBits(e.flags);
    WordDigits(e.flags.rest / 0x100 * 0x100_0000_0000 + e.frame, LowBits(e.flags));
    LowHuge(e.flags);
    var w := EntryWord(e);
    assert EntryWord(e.(flags := e.flags.(huge := false))) == w - if e.flags.huge then 0x80 else 0;
    hide EntryWord, And, LowBits;
    Cut80(w);
    AndClear(w / 0x100, w / 0x80 % 2, w % 0x80);
  }

  lemma LowHuge(f: Flags)
    ensures LowBits(f) == LowBits(f.(huge := false)) + if f.huge then 0x80 else 0
  {
  }

  lemma Cut80(w: nat)
    ensures w == w / 0x100 * 0x100 + w / 0x80 % 2 * 0x80 + w % 0x80
  {
    assert w / 0x100 == w / 0x80 / 2;
  }

  lemma AndClear(x: nat, b: nat, l: nat)
    requires x < 0x100_0000_0000_0000 && b < 2 && l < 0x80
    ensures And(x * 0x100 + b * 0x80 + l, NOT_HUGE) == x * 0x100 + l
  {
    hide And, Pow2;
    Powers();
    AndSplit(x, b * 0x80 + l, 0xFF_FFFF_FFFF_FFFF, 0x7F, 8);
    AndSplit(b, l, 0, 0x7F, 7);
    AndOnes(x, 56);
    AndOnes(l, 7);
    AndZero(b);
  }
}

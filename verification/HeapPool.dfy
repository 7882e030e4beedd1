/** The kernel pool as a set of blocks: which blocks tile it, which are allocated, and
    the order of the free list. Positions and lengths are in 8-byte words, so a block
    that starts at word s has byte address 8*s. The words themselves, with headers,
    footers and links, are in KernelHeap.

    kmalloc and kfree are given here as functions on this state, and what the allocator
    promises is proved about those functions. */
module HeapPool {
  import opened Basics

  const HEADER := 16
  const FOOTER := 8
  const ALIGN := 16
  const MIN_BLOCK := HEADER + FOOTER + ALIGN

  /** A length of MIN_BLOCK bytes, in words. */
  const MIN_WORDS := MIN_BLOCK / 8

  /** 64-bit addition, which wraps around. */
  function AddU64(a: nat, b: nat): (r: nat)
    requires a < WRAP_64 && b < WRAP_64
    ensures r < WRAP_64 && (r == a + b || r == a + b - WRAP_64)
  {
    if a + b < WRAP_64 then a + b else a + b - WRAP_64
  }

  lemma EightTimes(k: int)
    ensures 8 * k % 8 == 0
  {
  }

  /** heap.c:126-128, with the wrap-around of a 64-bit size_t. */
  function TotalNeeded(bytes: nat): (n: nat)
    requires bytes < WRAP_64
    ensures n % 8 == 0 && MIN_BLOCK <= n < WRAP_64
  {
    var units := AddU64(bytes, ALIGN - 1) / ALIGN;
    var total := AddU64(units * ALIGN, HEADER + FOOTER);
    assert total % 8 == 0 by {
      EightTimes(2 * units + 3);
      EightTimes(2 * units + 3 - WRAP_64 / 8);
    }
    if total < MIN_BLOCK then MIN_BLOCK else total
  }

  /** The rounded need covers the request, without waste of a whole alignment unit beyond
      the tags, exactly for the requests whose rounding does not wrap around. */
  lemma RequestCovered(bytes: nat)
    requires 0 < bytes < WRAP_64
    ensures bytes + HEADER + FOOTER <= TotalNeeded(bytes) <==> bytes <= WRAP_64 - 32
    ensures bytes <= WRAP_64 - 32 ==> TotalNeeded(bytes) < bytes + HEADER + FOOTER + ALIGN
  {
    var up := bytes + ALIGN - 1;
    if up < WRAP_64 {
      assert up - ALIGN < up / ALIGN * ALIGN <= up;
    }
  }

  /** A request whose rounding wraps around gets the smallest block there is. */
  lemma WrappedNeed(bytes: nat)
    requires WRAP_64 - 32 < bytes < WRAP_64
    ensures TotalNeeded(bytes) == MIN_BLOCK
  {
    var up := bytes + ALIGN - 1;
    if up < WRAP_64 {
      assert up / ALIGN == WRAP_64 / ALIGN - 1;
    }
  }

  // ---------------------------------------------------------------- blocks

  /** The word after block s, where m maps the first word of each block to its length. */
  function End(m: map<nat, nat>, s: nat): nat
    requires s in m
  {
    s + m[s]
  }

  /** Blocks are long enough, lie in [base, end) and do not overlap; one starts at base. */
  ghost predicate Blocks(m: map<nat, nat>, base: nat, end: nat) {
    && base in m
    && (forall s | s in m :: base <= s && MIN_WORDS <= m[s] && s + m[s] <= end)
    && (forall s, t | s in m && t in m && s < t :: s + m[s] <= t)
  }

  /** Every block is followed by another one or by the end. */
  ghost predicate NoGap(m: map<nat, nat>, end: nat) {
    forall s {:trigger End(m, s)} | s in m :: End(m, s) == end || End(m, s) in m
  }

  ghost predicate Tiled(m: map<nat, nat>, base: nat, end: nat) {
    Blocks(m, base, end) && NoGap(m, end)
  }

  /** The only neighbours that may both be free are x and the block after it (if right) and
      the block before x and x (if left). */
  ghost predicate CoalescedBut(m: map<nat, nat>, used: set<nat>, x: nat, left: bool, right: bool) {
    forall s {:trigger End(m, s)} | s in m && s !in used && End(m, s) in m ::
      End(m, s) in used || (right && s == x) || (left && End(m, s) == x)
  }

  /** No two neighbours are both free. */
  ghost predicate Coalesced(m: map<nat, nat>, used: set<nat>) {
    forall s {:trigger End(m, s)} | s in m && s !in used && End(m, s) in m :: End(m, s) in used
  }

  /** Block s swallows the block after it. */
  function Merge(m: map<nat, nat>, s: nat): map<nat, nat>
    requires s in m && End(m, s) in m
  {
    (m - {End(m, s)})[s := m[s] + m[End(m, s)]]
  }

  /** Block s is cut down to need words and the rest becomes a block. */
  function Split(m: map<nat, nat>, s: nat, need: nat): map<nat, nat>
    requires s in m && need <= m[s]
  {
    m[s := need][s + need := m[s] - need]
  }

  lemma MergeTiled(m: map<nat, nat>, base: nat, end: nat, s: nat)
    requires Tiled(m, base, end) && s in m && End(m, s) in m
    ensures Tiled(Merge(m, s), base, end)
    ensures End(Merge(m, s), s) == End(m, End(m, s))
  {
    MergeBlocks(m, base, end, s);
    MergeNoGap(m, base, end, s);
  }

  lemma MergeBlocks(m: map<nat, nat>, base: nat, end: nat, s: nat)
    requires Blocks(m, base, end) && s in m && End(m, s) in m
    ensures Blocks(Merge(m, s), base, end)
  {
    var m' := Merge(m, s);
    forall a, b | a in m' && b in m' && a < b ensures a + m'[a] <= b {
      MergeApart(m, base, end, s, a, b);
    }
  }

  lemma MergeApart(m: map<nat, nat>, base: nat, end: nat, s: nat, a: nat, b: nat)
    requires Blocks(m, base, end) && s in m && End(m, s) in m
    requires a in m && b in m && a < b && a != End(m, s) && b != End(m, s)
    ensures a + Merge(m, s)[a] <= b
  {
  }

  lemma MergeNoGap(m: map<nat, nat>, base: nat, end: nat, s: nat)
    requires Blocks(m, base, end) && NoGap(m, end) && s in m && End(m, s) in m
    ensures NoGap(Merge(m, s), end)
  {
    var m' := Merge(m, s);
    forall b | b in m' ensures End(m', b) == end || End(m', b) in m' {
      MergeNoGapAt(m, base, end, s, b);
    }
  }

  lemma MergeNoGapAt(m: map<nat, nat>, base: nat, end: nat, s: nat, b: nat)
    requires Blocks(m, base, end) && NoGap(m, end) && s in m && End(m, s) in m && b in m && b != End(m, s)
    ensures End(Merge(m, s), b) == end || End(Merge(m, s), b) in Merge(m, s)
  {
    var c := if b == s then End(m, s) else b;
    assert End(m, c) == end || End(m, c) in m;
  }

  /** Swallowing a free right neighbour settles the pair it formed with s. */
  lemma MergeRight(m: map<nat, nat>, base: nat, end: nat, used: set<nat>, s: nat)
    requires Tiled(m, base, end) && s in m && End(m, s) in m && s !in used && End(m, s) !in used
    requires CoalescedBut(m, used, s, true, true)
    ensures CoalescedBut(Merge(m, s), used, s, true, false)
  {
    var m' := Merge(m, s);
    var next := End(m, s);
    assert End(m, next) == end || End(m, next) in m;
    forall b | b in m' && b !in used && End(m', b) in m' ensures End(m', b) in used || End(m', b) == s {
      assert End(m, b) == end || End(m, b) in m;
    }
  }

  lemma MergeLeft(m: map<nat, nat>, base: nat, end: nat, used: set<nat>, p: nat, s: nat)
    requires Tiled(m, base, end) && p in m && s in m && End(m, p) == s && p !in used && s !in used
    requires CoalescedBut(m, used, s, true, false)
    ensures Coalesced(Merge(m, p), used)
  {
    var m' := Merge(m, p);
    assert End(m, s) == end || End(m, s) in m;
    forall b | b in m' && b !in used && End(m', b) in m' ensures End(m', b) in used {
      assert End(m, b) == end || End(m, b) in m;
    }
  }

  lemma SplitTiled(m: map<nat, nat>, base: nat, end: nat, s: nat, need: nat)
    requires Tiled(m, base, end) && s in m && MIN_WORDS <= need && need + MIN_WORDS <= m[s]
    ensures Tiled(Split(m, s, need), base, end)
  {
    SplitBlocks(m, base, end, s, need);
    SplitNoGap(m, end, s, need);
  }

  lemma SplitNoGap(m: map<nat, nat>, end: nat, s: nat, need: nat)
    requires NoGap(m, end) && s in m && need <= m[s]
    ensures NoGap(Split(m, s, need), end)
  {
    var m' := Split(m, s, need);
    forall b | b in m' ensures End(m', b) == end || End(m', b) in m' {
      assert End(m, s) == end || End(m, s) in m;
      if b in m {
        assert End(m, b) == end || End(m, b) in m;
      }
    }
  }

  lemma SplitBlocks(m: map<nat, nat>, base: nat, end: nat, s: nat, need: nat)
    requires Blocks(m, base, end) && s in m && MIN_WORDS <= need && need + MIN_WORDS <= m[s]
    ensures Blocks(Split(m, s, need), base, end)
  {
    var m' := Split(m, s, need);
    forall a, b | a in m' && b in m' && a < b ensures a + m'[a] <= b {
      if a in m && b in m {
        assert a + m[a] <= b;
      } else if a in m {
        assert a + m[a] <= s || a >= s;
      } else {
        assert b <= s || s + m[s] <= b;
      }
    }
  }

  lemma SplitCoalesced(m: map<nat, nat>, base: nat, end: nat, used: set<nat>, s: nat, need: nat)
    requires Tiled(m, base, end) && s in m && MIN_WORDS <= need && need + MIN_WORDS <= m[s]
    requires Coalesced(m, used) && s !in used
    ensures Coalesced(Split(m, s, need), used + {s})
  {
    var m' := Split(m, s, need);
    forall b | b in m' && b !in used + {s} && End(m', b) in m' ensures End(m', b) in used + {s} {
      assert End(m, s) == end || End(m, s) in used;
      if b in m {
        assert End(m, b) == end || End(m, b) in m;
      }
    }
  }

  /** Some block ends where block s starts, unless s is the first. */
  lemma {:induction false} PredecessorFrom(m: map<nat, nat>, base: nat, end: nat, p: nat, s: nat) returns (r: nat)
    requires Tiled(m, base, end) && p in m && s in m && p < s
    ensures r in m && End(m, r) == s
    decreases s - p
  {
    if End(m, p) == s {
      r := p;
    } else {
      r := PredecessorFrom(m, base, end, End(m, p), s);
    }
  }

  lemma {:induction false} BlockAt(m: map<nat, nat>, base: nat, end: nat, from: nat, w: nat) returns (s: nat)
    requires Tiled(m, base, end) && from in m && from <= w < end
    ensures s in m && s <= w < End(m, s)
    decreases w - from
  {
    if w < End(m, from) {
      s := from;
    } else {
      s := BlockAt(m, base, end, End(m, from), w);
    }
  }

  // ---------------------------------------------------------------- the free list

  /** q with the first occurrence of x taken out. */
  function Without(q: seq<nat>, x: nat): (r: seq<nat>)
    ensures x !in q ==> r == q
  {
    if q == [] then [] else if q[0] == x then q[1..] else [q[0]] + Without(q[1..], x)
  }

  lemma {:induction false} WithoutAt(q: seq<nat>, i: nat)
    requires i < |q| && Distinct(q)
    ensures Without(q, q[i]) == q[..i] + q[i + 1..]
  {
    if i > 0 {
      WithoutAt(q[1..], i - 1);
      assert q[1..][..i - 1] == q[1..i];
      assert q[..i] == [q[0]] + q[1..i];
    }
  }

  lemma {:induction false} WithoutMembers(q: seq<nat>, x: nat)
    requires Distinct(q)
    ensures Distinct(Without(q, x))
    ensures forall y :: y in Without(q, x) <==> y in q && y != x
  {
    if q != [] {
      assert Distinct(q[1..]);
      assert q == [q[0]] + q[1..];
      WithoutMembers(q[1..], x);
      if q[0] != x {
        DistinctCons(q[0], Without(q[1..], x));
      }
    }
  }

  lemma DistinctCons(x: nat, q: seq<nat>)
    requires Distinct(q) && x !in q
    ensures Distinct([x] + q)
  {
  }

  /** Position in list order of the first block of at least need words, or |free|. */
  function FirstFit(free: seq<nat>, size: map<nat, nat>, need: nat): (i: nat)
    requires forall s | s in free :: s in size
    ensures i <= |free|
    ensures forall j | 0 <= j < i :: size[free[j]] < need
    ensures i < |free| ==> need <= size[free[i]]
  {
    if free == [] || need <= size[free[0]] then 0 else
      assert forall s | s in free[1..] :: s in free;
      1 + FirstFit(free[1..], size, need)
  }

  // ---------------------------------------------------------------- the pool

  /** size maps the first word of each block to its length; free lists the free blocks in
      list order; the other blocks are used. */
  datatype Pool = Pool(base: nat, end: nat, size: map<nat, nat>, used: set<nat>, free: seq<nat>) {

    predicate IsFree(s: nat) {
      s in size && s !in used
    }

    /** The list holds each free block once and nothing else. */
    ghost predicate Listed() {
      && used <= size.Keys
      && (forall s :: s in free <==> IsFree(s))
      && Distinct(free)
    }

    ghost predicate Valid() {
      0 < base && Tiled(size, base, end) && Coalesced(size, used) && Listed()
    }

    /** Word w belongs to block s. */
    predicate Covers(s: nat, w: nat) {
      s in size && s <= w < s + size[s]
    }

    /** Word w belongs to some free block. */
    ghost predicate FreeWord(w: nat) {
      exists s :: IsFree(s) && Covers(s, w)
    }

    /** p is the block before s, or s itself when s is the first. */
    ghost predicate Before(p: nat, s: nat)
      requires s in size
    {
      p in size && if s == base then p == s else End(size, p) == s
    }

    /** The block before s, or s itself. */
    ghost function PrevOf(s: nat): (p: nat)
      requires Valid() && s in size
      ensures Before(p, s)
    {
      BeforeExists(this, s);
      var p: nat :| Before(p, s);
      p
    }

    /** Take block s off the list, cut it down to need words when a whole block remains,
        and mark it used (heap.c:137-156). */
    function Take(s: nat, need: nat): Pool
      requires s in size && need <= size[s]
    {
      var rest := Without(free, s);
      if need + MIN_WORDS <= size[s] then
        Pool(base, end, Split(size, s, need), used + {s}, [s + need] + rest)
      else
        Pool(base, end, size, used + {s}, rest)
    }

    predicate CanFit(need: nat)
      requires forall s | s in free :: s in size
    {
      FirstFit(free, size, need) < |free|
    }

    /** The block first fit takes. */
    function Chosen(need: nat): (s: nat)
      requires forall s | s in free :: s in size
      requires CanFit(need)
      ensures s in free && s in size && need <= size[s]
    {
      free[FirstFit(free, size, need)]
    }

    /** Mark s free and merge it with the block after it if that is free
        (heap.c:178-188). */
    function GrowRight(s: nat): Pool
      requires s in size
    {
      var next := End(size, s);
      if IsFree(next) then
        Pool(base, end, Merge(size, s), used - {s}, Without(free, next))
      else
        this.(used := used - {s})
    }

    /** Does the freed block s join the block p before it? */
    predicate JoinsLeft(s: nat, p: nat) {
      p != s && p !in used
    }

    /** Merge s into the block p before it if that is free; p leaves the list
        (heap.c:191-199). */
    function AbsorbLeft(s: nat, p: nat): Pool
      requires s in size && p in size && (p == s || End(size, p) == s)
    {
      if JoinsLeft(s, p) then Pool(base, end, Merge(size, p), used, Without(free, p)) else this
    }

    /** Put the result at the front of the list (heap.c:201). */
    function JoinLeft(s: nat, p: nat): Pool
      requires s in size && p in size && (p == s || End(size, p) == s)
    {
      var joined := AbsorbLeft(s, p);
      joined.(free := [if JoinsLeft(s, p) then p else s] + joined.free)
    }

    /** Free block s, whose predecessor is p. */
    ghost function Give(s: nat, p: nat): Pool
      requires Valid() && s in size && Before(p, s)
    {
      assert p in GrowRight(s).size;
      GrowRight(s).JoinLeft(s, p)
    }
  }

  /** The state kheap_init leaves: one free block (heap.c:98-117). */
  function Fresh(base: nat, end: nat): Pool
    requires base < end
  {
    Pool(base, end, map[base := end - base], {}, [base])
  }

  lemma FreshValid(base: nat, end: nat)
    requires 0 < base && base + MIN_WORDS <= end
    ensures Fresh(base, end).Valid()
  {
  }

  /** The blocks tile [base, end) exactly: each word of it lies in exactly one block, and
      no block reaches outside. */
  lemma TilesExactly(pool: Pool, w: nat)
    requires Tiled(pool.size, pool.base, pool.end)
    ensures pool.base <= w < pool.end <==> exists s: nat :: pool.Covers(s, w)
    ensures forall s, t :: pool.Covers(s, w) && pool.Covers(t, w) ==> s == t
  {
    if pool.base <= w < pool.end {
      var s := BlockAt(pool.size, pool.base, pool.end, pool.base, w);
      assert pool.Covers(s, w);
    }
  }

  lemma BeforeExists(pool: Pool, s: nat)
    requires pool.Valid() && s in pool.size
    ensures exists p: nat :: pool.Before(p, s)
  {
    if s == pool.base {
      assert pool.Before(s, s);
    } else {
      var p := PredecessorFrom(pool.size, pool.base, pool.end, pool.base, s);
      assert pool.Before(p, s);
    }
  }

  // ---------------------------------------------------------------- kmalloc

  lemma TakeValid(pool: Pool, s: nat, need: nat)
    requires pool.Valid() && s in pool.free && MIN_WORDS <= need <= pool.size[s]
    ensures pool.Take(s, need).Valid()
  {
    TakeListed(pool, s, need);
    if need + MIN_WORDS <= pool.size[s] {
      SplitTiled(pool.size, pool.base, pool.end, s, need);
      SplitCoalesced(pool.size, pool.base, pool.end, pool.used, s, need);
    }
  }

  lemma TakeListed(pool: Pool, s: nat, need: nat)
    requires pool.Valid() && s in pool.free && MIN_WORDS <= need <= pool.size[s]
    ensures pool.Take(s, need).Listed()
  {
    WithoutMembers(pool.free, s);
    var rest := Without(pool.free, s);
    if need + MIN_WORDS <= pool.size[s] {
      assert s + need !in pool.size;
      DistinctCons(s + need, rest);
    }
  }

  /** What a successful kmalloc of bytes hands out: a block that was not live, of at least
      the rounded need and less than one minimal block more, whose words no live block
      has; every live block keeps its place and length; and the user area holds the
      request exactly if rounding it did not wrap around. */
  ghost predicate Grants(pool: Pool, pool': Pool, s: nat, bytes: nat)
    requires bytes < WRAP_64
  {
    && s !in pool.used && s in pool'.size && pool'.used == pool.used + {s}
    && TotalNeeded(bytes) <= 8 * pool'.size[s] < TotalNeeded(bytes) + MIN_BLOCK
    && (bytes <= 8 * pool'.size[s] - HEADER - FOOTER <==> bytes <= WRAP_64 - 32)
    && (forall t | t in pool.used :: t in pool.size && t in pool'.size && pool'.size[t] == pool.size[t])
    && (forall t, w | t in pool.used && pool'.Covers(t, w) :: !pool'.Covers(s, w))
  }

  /** What is cut off a free block is outside all blocks in use. */
  lemma TakeApart(pool: Pool, s: nat, need: nat)
    requires pool.Valid() && s in pool.free && need <= pool.size[s]
    ensures var pool' := pool.Take(s, need);
      && s !in pool.used
      && (forall t | t in pool.used :: t in pool.size && t in pool'.size && pool'.size[t] == pool.size[t])
      && (forall t, w | t in pool.used && pool'.Covers(t, w) :: !pool'.Covers(s, w))
  {
    hide Coalesced, Distinct, NoGap;
    var pool' := pool.Take(s, need);
    forall t | t in pool.used ensures t in pool.size && t in pool'.size && pool'.size[t] == pool.size[t] {
      assert t + pool.size[t] <= s || s + pool.size[s] <= t;
    }
  }

  lemma TakeGrants(pool: Pool, s: nat, bytes: nat)
    requires pool.Valid() && bytes < WRAP_64 && s in pool.free && TotalNeeded(bytes) / 8 <= pool.size[s]
    ensures Grants(pool, pool.Take(s, TotalNeeded(bytes) / 8), s, bytes)
  {
    TakeApart(pool, s, TotalNeeded(bytes) / 8);
    if 0 < bytes {
      RequestCovered(bytes);
    }
    if bytes > WRAP_64 - 32 {
      WrappedNeed(bytes);
    }
    hide Coalesced, Distinct, NoGap, Blocks;
  }

  /** A run of free words lies inside one free block: blocks are fully coalesced. */
  lemma FreeRunInOneBlock(pool: Pool, a: nat, n: nat) returns (s: nat)
    requires pool.Valid() && 0 < n
    requires forall w: nat | a <= w < a + n :: pool.FreeWord(w)
    ensures pool.IsFree(s) && s <= a && a + n <= End(pool.size, s)
  {
    assert pool.FreeWord(a);
    s :| pool.IsFree(s) && pool.Covers(s, a);
    assert !pool.FreeWord(End(pool.size, s));
  }

  ghost predicate RunAt(pool: Pool, a: nat, n: nat) {
    forall w: nat | a <= w < a + n :: pool.FreeWord(w)
  }

  /** A contiguous run of n free words exists. */
  ghost predicate HasRun(pool: Pool, n: nat) {
    exists a: nat :: RunAt(pool, a, n)
  }

  /** First fit fails exactly when no contiguous run of free words is long enough. */
  lemma FitIffRun(pool: Pool, need: nat)
    requires pool.Valid() && 0 < need
    ensures pool.CanFit(need) <==> HasRun(pool, need)
  {
    if pool.CanFit(need) {
      FitGivesRun(pool, pool.Chosen(need), need);
    }
    if HasRun(pool, need) {
      var a: nat :| RunAt(pool, a, need);
      var s := FreeRunInOneBlock(pool, a, need);
      assert s in pool.free;
    }
  }

  lemma FitGivesRun(pool: Pool, s: nat, need: nat)
    requires pool.IsFree(s) && need <= pool.size[s]
    ensures HasRun(pool, need)
  {
    forall w: nat | s <= w < s + need ensures pool.FreeWord(w) {
      assert pool.Covers(s, w);
    }
    assert RunAt(pool, s, need);
  }

  // ---------------------------------------------------------------- kfree

  lemma GrowRightTiled(pool: Pool, s: nat)
    requires pool.Valid() && s in pool.used
    ensures var grown := pool.GrowRight(s);
      && Tiled(grown.size, pool.base, pool.end)
      && CoalescedBut(grown.size, grown.used, s, true, false)
  {
    var used' := pool.used - {s};
    assert CoalescedBut(pool.size, used', s, true, true);
    if pool.IsFree(End(pool.size, s)) {
      MergeTiled(pool.size, pool.base, pool.end, s);
      MergeRight(pool.size, pool.base, pool.end, used', s);
    }
  }

  lemma GiveTiled(pool: Pool, s: nat, p: nat)
    requires pool.Valid() && s in pool.used && pool.Before(p, s)
    ensures var pool' := pool.Give(s, p);
      Tiled(pool'.size, pool.base, pool.end) && Coalesced(pool'.size, pool'.used)
  {
    var grown := pool.GrowRight(s);
    GrowRightTiled(pool, s);
    if p != s && p !in pool.used {
      MergeTiled(grown.size, pool.base, pool.end, p);
      MergeLeft(grown.size, pool.base, pool.end, grown.used, p, s);
    } else {
      NoPairLeft(grown.size, pool.base, pool.end, grown.used, p, s);
    }
  }

  /** When the block before s is used, or there is none, no pair is left. */
  lemma NoPairLeft(m: map<nat, nat>, base: nat, end: nat, used: set<nat>, p: nat, s: nat)
    requires Tiled(m, base, end) && s in m && CoalescedBut(m, used, s, true, false)
    requires p in m && if s == base then p == s else End(m, p) == s && p in used
    ensures Coalesced(m, used)
  {
  }

  lemma GrowRightListed(pool: Pool, s: nat)
    requires pool.Valid() && s in pool.used
    ensures var grown := pool.GrowRight(s);
      && grown.used <= grown.size.Keys && Distinct(grown.free)
      && s in grown.size && s !in grown.used
      && (forall b :: b in grown.free <==> grown.IsFree(b) && b != s)
  {
    WithoutMembers(pool.free, End(pool.size, s));
  }

  lemma JoinLeftListed(pool: Pool, s: nat, p: nat)
    requires pool.used <= pool.size.Keys && Distinct(pool.free)
    requires s in pool.size && p in pool.size && s !in pool.used && (p == s || p < End(pool.size, p) == s)
    requires forall b :: b in pool.free <==> pool.IsFree(b) && b != s
    ensures pool.JoinLeft(s, p).Listed()
  {
    if p != s && p !in pool.used {
      WithoutMembers(pool.free, p);
      DistinctCons(p, Without(pool.free, p));
    } else {
      DistinctCons(s, pool.free);
    }
  }

  lemma GiveListed(pool: Pool, s: nat, p: nat)
    requires pool.Valid() && s in pool.used && pool.Before(p, s)
    ensures pool.Give(s, p).Listed()
  {
    GrowRightListed(pool, s);
    JoinLeftListed(pool.GrowRight(s), s, p);
  }

  lemma GiveValid(pool: Pool, s: nat, p: nat)
    requires pool.Valid() && s in pool.used && pool.Before(p, s)
    ensures pool.Give(s, p).Valid()
    ensures pool.Give(s, p).base == pool.base && pool.Give(s, p).end == pool.end
  {
    GiveTiled(pool, s, p);
    GiveListed(pool, s, p);
  }

  /** kfree gives up exactly block s: every other live block keeps its place and length,
      and the free words are the old ones and those of s. */
  lemma GiveReleases(pool: Pool, s: nat, p: nat)
    requires pool.Valid() && s in pool.used && pool.Before(p, s)
    ensures var pool' := pool.Give(s, p);
      && GivesUpOnly(pool, pool', s)
      && (forall w: nat :: pool'.FreeWord(w) <==> pool.FreeWord(w) || pool.Covers(s, w))
  {
    var pool' := pool.Give(s, p);
    GiveValid(pool, s, p);
    GiveKeepsLive(pool, s, p);
    forall w: nat ensures pool'.FreeWord(w) <==> pool.FreeWord(w) || pool.Covers(s, w) {
      FreeIffNotUsed(pool, w);
      FreeIffNotUsed(pool', w);
      UsedWordsAfter(pool, pool', s, w);
    }
  }

  /** Of the live blocks exactly s is gone, and the others stay where they are. */
  ghost predicate GivesUpOnly(pool: Pool, pool': Pool, s: nat) {
    && pool'.used == pool.used - {s}
    && (forall t | t in pool'.used :: t in pool.size && t in pool'.size && pool'.size[t] == pool.size[t])
  }

  lemma GiveKeepsLive(pool: Pool, s: nat, p: nat)
    requires pool.Valid() && s in pool.used && pool.Before(p, s)
    ensures GivesUpOnly(pool, pool.Give(s, p), s)
  {
    hide Blocks, NoGap, Coalesced, Distinct;
  }

  lemma UsedWordsAfter(pool: Pool, pool': Pool, s: nat, w: nat)
    requires pool.Valid() && s in pool.used && GivesUpOnly(pool, pool', s)
    ensures UsedWord(pool', w) <==> UsedWord(pool, w) && !pool.Covers(s, w)
  {
    if UsedWord(pool, w) && !pool.Covers(s, w) {
      var t: nat :| t in pool.used && pool.Covers(t, w);
      assert t in pool'.used && pool'.Covers(t, w);
    }
    if UsedWord(pool', w) {
      var t: nat :| t in pool'.used && pool'.Covers(t, w);
      assert t in pool.used && pool.Covers(t, w);
    }
  }

  ghost predicate UsedWord(pool: Pool, w: nat) {
    exists s: nat :: s in pool.used && pool.Covers(s, w)
  }

  /** A word of the pool is free exactly when no live block covers it. */
  lemma FreeIffNotUsed(pool: Pool, w: nat)
    requires pool.Valid()
    ensures pool.FreeWord(w) <==> pool.base <= w < pool.end && !UsedWord(pool, w)
  {
    TilesExactly(pool, w);
  }

  /** With no live block left, the pool is one free block again. */
  lemma AllFreedIsFresh(pool: Pool)
    requires pool.Valid() && pool.used == {}
    ensures pool == Fresh(pool.base, pool.end)
  {
    var b := pool.base;
    assert End(pool.size, b) == pool.end;
    assert forall s | s in pool.size :: s == b;
    assert pool.size == map[b := pool.end - b];
    assert b in pool.free;
    assert pool.free[|pool.free| - 1] in pool.free && pool.free[0] in pool.free;
    assert pool.free == [b];
  }

  // ---------------------------------------------------------------- runs

  datatype Call = Malloc(bytes: nat) | Free(block: nat)

  /** What a call does to a pool: kmalloc of any 64-bit size, kfree of a live block, and
      kfree of anything else, which does nothing. */
  ghost function Step(pool: Pool, call: Call): Pool
    requires pool.Valid()
  {
    assert forall s | s in pool.free :: pool.IsFree(s);
    match call
    case Malloc(bytes) =>
      if 0 < bytes < WRAP_64 && pool.CanFit(TotalNeeded(bytes) / 8)
      then pool.Take(pool.Chosen(TotalNeeded(bytes) / 8), TotalNeeded(bytes) / 8)
      else pool
    case Free(s) =>
      if s in pool.used then pool.Give(s, pool.PrevOf(s)) else pool
  }

  lemma StepValid(pool: Pool, call: Call)
    requires pool.Valid()
    ensures Step(pool, call).Valid()
    ensures Step(pool, call).base == pool.base && Step(pool, call).end == pool.end
  {
    match call
    case Malloc(bytes) =>
      if 0 < bytes < WRAP_64 && pool.CanFit(TotalNeeded(bytes) / 8) {
        TakeValid(pool, pool.Chosen(TotalNeeded(bytes) / 8), TotalNeeded(bytes) / 8);
      }
    case Free(s) =>
      if s in pool.used {
        GiveValid(pool, s, pool.PrevOf(s));
      }
  }

  /** The pool after any sequence of calls on a new heap. */
  ghost function Reached(base: nat, end: nat, calls: seq<Call>): (pool: Pool)
    requires 0 < base && base + MIN_WORDS <= end
    ensures pool.Valid() && pool.base == base && pool.end == end
  {
    if calls == [] then
      FreshValid(base, end);
      Fresh(base, end)
    else
      var before := Reached(base, end, calls[..|calls| - 1]);
      StepValid(before, calls[|calls| - 1]);
      Step(before, calls[|calls| - 1])
  }

  /** The pool after the blocks of order are freed one after another. */
  ghost function FreedAll(pool: Pool, order: seq<nat>): Pool
    requires pool.Valid()
    decreases order
  {
    if order == [] then pool else
      StepValid(pool, Free(order[0]));
      FreedAll(Step(pool, Free(order[0])), order[1..])
  }

  /** Freeing every live block, in any order, gives back the pool kheap_init made. */
  lemma {:induction false} FreeAllAnyOrder(pool: Pool, order: seq<nat>)
    requires pool.Valid() && Distinct(order) && (forall s :: s in order <==> s in pool.used)
    ensures FreedAll(pool, order) == Fresh(pool.base, pool.end)
    decreases order
  {
    if order == [] {
      AllFreedIsFresh(pool);
    } else {
      var s := order[0];
      var rest := order[1..];
      StepValid(pool, Free(s));
      GiveKeepsLive(pool, s, pool.PrevOf(s));
      assert forall t :: t in order <==> t == s || t in rest;
      assert s !in rest;
      FreeAllAnyOrder(Step(pool, Free(s)), rest);
    }
  }

  // ---------------------------------------------------------------- alignment

  /** The blocks before s whose length is an odd number of words. */
  ghost function OddBefore(m: map<nat, nat>, s: nat): set<nat> {
    set t | t in m && t < s && m[t] % 2 == 1
  }

  /** Every length that kmalloc cuts off is an odd number of words. */
  lemma NeedIsOdd(bytes: nat)
    requires bytes < WRAP_64
    ensures TotalNeeded(bytes) / 8 % 2 == 1
  {
    var units := AddU64(bytes, ALIGN - 1) / ALIGN;
    var total := AddU64(units * ALIGN, HEADER + FOOTER);
    assert total == 8 * (2 * units + 3) || total == 8 * (2 * units + 3 - WRAP_64 / 8);
  }

  lemma {:induction false} OddBeforeParity(m: map<nat, nat>, base: nat, end: nat, s: nat)
    requires Tiled(m, base, end) && s in m
    ensures (s - base) % 2 == |OddBefore(m, s)| % 2
    decreases s
  {
    if s == base {
      assert OddBefore(m, s) == {};
    } else {
      var p := PredecessorFrom(m, base, end, base, s);
      OddBeforeParity(m, base, end, p);
      OddBeforeNext(m, base, end, p);
      hide *;
    }
  }

  lemma NothingBetween(m: map<nat, nat>, base: nat, end: nat, p: nat, t: nat)
    requires Blocks(m, base, end) && p in m && t in m
    ensures t < End(m, p) <==> t <= p
  {
  }

  lemma OddBeforeNext(m: map<nat, nat>, base: nat, end: nat, p: nat)
    requires Tiled(m, base, end) && p in m
    ensures |OddBefore(m, End(m, p))| == |OddBefore(m, p)| + m[p] % 2
  {
    hide Blocks, NoGap;
    var odd, odd' := OddBefore(m, p), OddBefore(m, End(m, p));
    forall t ensures t in odd' <==> t in odd || (t == p && m[p] % 2 == 1) {
      if t in m {
        NothingBetween(m, base, end, p, t);
      }
    }
    assert p !in odd;
    hide OddBefore;
    if m[p] % 2 == 1 {
      assert odd' == odd + {p};
    } else {
      assert odd' == odd;
    }
  }

  /** The user area of a block starts at a multiple of 16 bytes exactly when the blocks of
      odd length before it make up for the base. */
  lemma AlignedIff(pool: Pool, s: nat)
    requires pool.Valid() && s in pool.size
    ensures 8 * (s + 2) % 16 == 0 <==> |OddBefore(pool.size, s)| % 2 == pool.base % 2
  {
    OddBeforeParity(pool.size, pool.base, pool.end, s);
  }

  /** One block is free, and an odd number of words lies before it exactly when k is odd. */
  ghost predicate CutFrom(pool: Pool, base: nat, k: nat) {
    pool.Valid() && |pool.free| == 1 && pool.free[0] in pool.size && pool.free[0] % 2 == (base + k) % 2
  }

  /** A request that leaves a rest of the only free block is 16-byte aligned exactly when
      base + k is even. */
  lemma CutsAlternate(pool: Pool, base: nat, k: nat, bytes: nat)
    requires CutFrom(pool, base, k) && 0 < bytes < WRAP_64
    requires TotalNeeded(bytes) / 8 + MIN_WORDS <= pool.size[pool.free[0]]
    ensures var need := TotalNeeded(bytes) / 8;
      && pool.CanFit(need) && pool.Chosen(need) == pool.free[0]
      && (8 * (pool.Chosen(need) + 2) % 16 == 0 <==> (base + k) % 2 == 0)
      && CutFrom(Step(pool, Malloc(bytes)), base, k + 1)
  {
    var need := TotalNeeded(bytes) / 8;
    FirstIsChosen(pool, need);
    NeedIsOdd(bytes);
    CutOff(pool, base, k, need);
    hide CutFrom, TotalNeeded, Pool.Chosen, Pool.CanFit, Pool.Take, FirstFit;
  }

  lemma CutOff(pool: Pool, base: nat, k: nat, need: nat)
    requires CutFrom(pool, base, k) && need % 2 == 1 && MIN_WORDS <= need
    requires need + MIN_WORDS <= pool.size[pool.free[0]]
    ensures CutFrom(pool.Take(pool.free[0], need), base, k + 1)
    ensures 8 * (pool.free[0] + 2) % 16 == 0 <==> (base + k) % 2 == 0
  {
    var s := pool.free[0];
    assert pool.free == [s];
    TakeValid(pool, s, need);
    OnlyRestIsFree(pool, s, need);
    OddStep(s, base + k, need);
    hide Pool.Valid, Pool.Take;
  }

  lemma OddStep(s: nat, b: nat, need: nat)
    requires s % 2 == b % 2 && need % 2 == 1
    ensures (s + need) % 2 == (b + 1) % 2
    ensures 8 * (s + 2) % 16 == 0 <==> b % 2 == 0
  {
  }

  lemma OnlyRestIsFree(pool: Pool, s: nat, need: nat)
    requires pool.free == [s] && s in pool.size && need + MIN_WORDS <= pool.size[s]
    ensures pool.Take(s, need).free == [s + need] && s + need in pool.Take(s, need).size
  {
    assert Without([s], s) == [];
  }

  lemma FirstIsChosen(pool: Pool, need: nat)
    requires pool.Valid() && |pool.free| > 0 && pool.free[0] in pool.size && need <= pool.size[pool.free[0]]
    ensures pool.free[0] in pool.size && pool.CanFit(need) && pool.Chosen(need) == pool.free[0]
  {
  }

  /** The calls are requests that each leave a rest of the only free block. */
  ghost predicate OnlyCuts(base: nat, end: nat, calls: seq<Call>)
    requires 0 < base && base + MIN_WORDS <= end
  {
    calls == [] ||
    var n := |calls| - 1;
    var before := Reached(base, end, calls[..n]);
    && OnlyCuts(base, end, calls[..n])
    && calls[n].Malloc? && 0 < calls[n].bytes < WRAP_64
    && |before.free| == 1 && before.free[0] in before.size
    && TotalNeeded(calls[n].bytes) / 8 + MIN_WORDS <= before.size[before.free[0]]
  }

  /** So on a new heap that only gets such requests every second pointer is misaligned. */
  lemma {:induction false} CutsFromStart(base: nat, end: nat, calls: seq<Call>)
    requires 0 < base && base + MIN_WORDS <= end && OnlyCuts(base, end, calls)
    ensures CutFrom(Reached(base, end, calls), base, |calls|)
  {
    if calls != [] {
      var n := |calls| - 1;
      CutsFromStart(base, end, calls[..n]);
      CutsAlternate(Reached(base, end, calls[..n]), base, n, calls[n].bytes);
    }
  }

  /** On a new heap at an even word two kmalloc(1) give two pointers of which the second is
      8 bytes off. */
  lemma SecondPointerMisaligned()
    ensures var need := TotalNeeded(1) / 8; var start := Fresh(2, 102);
      && start.Valid() && start.CanFit(need) && 8 * (start.Chosen(need) + 2) % 16 == 0
      && var after := Step(start, Malloc(1));
      && after.Valid() && after.CanFit(need) && 8 * (after.Chosen(need) + 2) % 16 == 8
  {
    FreshValid(2, 102);
    assert TotalNeeded(1) == 40;
    CutsAlternate(Fresh(2, 102), 2, 0, 1);
    assert Step(Fresh(2, 102), Malloc(1)).free == [7];
  }

  // ---------------------------------------------------------------- a request that wraps around

  /** On a new heap of 800 bytes a request for 2^64 - 1 bytes is granted a block of 40. */
  lemma HugeRequestGranted()
    ensures var need, start := TotalNeeded(WRAP_64 - 1) / 8, Fresh(2, 102);
      && start.Valid() && start.CanFit(need) && start.Chosen(need) == 2
      && Step(start, Malloc(WRAP_64 - 1)).used == {2} && Step(start, Malloc(WRAP_64 - 1)).size[2] == 5
  {
    FreshValid(2, 102);
    WrappedNeed(WRAP_64 - 1);
    FirstIsChosen(Fresh(2, 102), 5);
  }
}

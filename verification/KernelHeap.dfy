/** The pool as it stands in memory: headers, footers and the links of the free list are
    words of the managed memory itself. Memory is an array of 8-byte words, so byte
    address a is word a / 8 and word 0 stands for NULL. Sizes and links are stored in
    bytes, as the allocator stores them. */
module HeapImage {
  import opened Basics
  import opened HeapPool

  const MAGIC := 0xDEADC0DE

  /** First word of a header: the magic number in the low half, the flags in the high. */
  function HeaderWord(flags: nat): nat {
    MAGIC + flags * WRAP_32
  }

  function MagicOf(word: nat): nat {
    word % WRAP_32
  }

  function FlagsOf(word: nat): nat {
    word / WRAP_32
  }

  function WithFlags(word: nat, flags: nat): nat {
    MagicOf(word) + flags * WRAP_32
  }

  /** Does kfree take the word for the header of a block in use (heap.c:176)? */
  predicate LooksUsed(word: nat) {
    MagicOf(word) == MAGIC && FlagsOf(word) % 2 == 1
  }

  lemma HeaderWordParts(flags: nat)
    ensures MagicOf(HeaderWord(flags)) == MAGIC && FlagsOf(HeaderWord(flags)) == flags
    ensures forall f: nat :: WithFlags(HeaderWord(flags), f) == HeaderWord(f)
  {
  }

  /** Byte address of the user area of block s, which is also the address of its free
      list node. */
  function UserAddr(s: nat): nat {
    8 * (s + 2)
  }

  /** Header and footer of a block of len words. */
  ghost predicate TagAt(m: seq<nat>, s: nat, len: nat, used: bool) {
    && 2 <= len && s + len <= |m|
    && m[s] == HeaderWord(if used then 1 else 0)
    && m[s + 1] == 8 * len
    && m[s + len - 1] == 8 * len
  }

  ghost predicate TagsBut(m: seq<nat>, pool: Pool, but: set<nat>) {
    forall s | s in pool.size && s !in but :: TagAt(m, s, pool.size[s], s in pool.used)
  }

  ghost predicate Tags(m: seq<nat>, pool: Pool) {
    TagsBut(m, pool, {})
  }

  function LinkTo(free: seq<nat>, i: int): nat {
    if 0 <= i < |free| then UserAddr(free[i]) else 0
  }

  /** The i-th list node points back to the one before it and on to the one after it. */
  ghost predicate LinkAt(m: seq<nat>, free: seq<nat>, i: nat)
    requires i < |free|
  {
    && free[i] + 3 < |m|
    && m[free[i] + 2] == LinkTo(free, i - 1)
    && m[free[i] + 3] == LinkTo(free, i + 1)
  }

  /** The doubly linked list in memory that starts at head is exactly free. */
  ghost predicate Links(m: seq<nat>, free: seq<nat>, head: nat) {
    && head == LinkTo(free, 0)
    && forall i {:trigger LinkAt(m, free, i)} | 0 <= i < |free| :: LinkAt(m, free, i)
  }

  /** Memory holds the pool. */
  ghost predicate Image(m: seq<nat>, pool: Pool, head: nat) {
    pool.end <= |m| && Tags(m, pool) && Links(m, pool.free, head)
  }

  /** List nodes of different blocks do not overlap. */
  ghost predicate Spaced(free: seq<nat>) {
    forall i, j | 0 <= i < j < |free| :: free[i] + 4 <= free[j] || free[j] + 4 <= free[i]
  }

  ghost predicate Clear(h: nat, free: seq<nat>) {
    forall i | 0 <= i < |free| :: free[i] + 4 <= h || h + 4 <= free[i]
  }

  /** Words that are not list links of the listed blocks are the same. */
  ghost predicate SameButLinks(m: seq<nat>, m': seq<nat>, listed: seq<nat>) {
    |m'| == |m| && forall w | 0 <= w < |m| && w - 2 !in listed && w - 3 !in listed :: m'[w] == m[w]
  }

  // ---------------------------------------------------------------- list operations

  /** Memory after free_list_insert (heap.c:78-84). */
  function Inserted(m: seq<nat>, head: nat, h: nat): seq<nat>
    requires h + 3 < |m| && head / 8 < |m|
  {
    var m1 := m[h + 3 := head][h + 2 := 0];
    if head != 0 then m1[head / 8 := UserAddr(h)] else m1
  }

  lemma InsertedLinks(m: seq<nat>, free: seq<nat>, head: nat, h: nat)
    requires Links(m, free, head) && Spaced(free) && Clear(h, free) && h + 3 < |m|
    ensures head / 8 < |m|
    ensures Links(Inserted(m, head, h), [h] + free, UserAddr(h))
    ensures SameButLinks(m, Inserted(m, head, h), [h] + free)
  {
    if free != [] {
      assert LinkAt(m, free, 0);
      assert head / 8 == free[0] + 2;
    }
    var m' := Inserted(m, head, h);
    var free' := [h] + free;
    forall i | 0 <= i < |free'| ensures LinkAt(m', free', i) {
      if i > 0 {
        assert LinkAt(m, free, i - 1);
      }
    }
  }

  /** The node of h has links that can be followed. */
  predicate Removable(m: seq<nat>, h: nat) {
    && h + 3 < |m| && m[h + 2] / 8 + 1 < |m|
    && Unhooked(m, h)[h + 3] / 8 < |m|
  }

  /** The node before h points past it (heap.c:88). */
  function Unhooked(m: seq<nat>, h: nat): seq<nat>
    requires h + 3 < |m| && m[h + 2] / 8 + 1 < |m|
  {
    if m[h + 2] != 0 then m[m[h + 2] / 8 + 1 := m[h + 3]] else m
  }

  /** Memory after free_list_remove (heap.c:86-93). */
  function Removed(m: seq<nat>, h: nat): seq<nat>
    requires Removable(m, h)
  {
    var m1 := Unhooked(m, h);
    var m2 := if m1[h + 3] != 0 then m1[m1[h + 3] / 8 := m1[h + 2]] else m1;
    m2[h + 3 := 0][h + 2 := 0]
  }

  function RemovedHead(m: seq<nat>, head: nat, h: nat): nat
    requires h + 3 < |m|
  {
    if m[h + 2] != 0 then head else m[h + 3]
  }

  /** The node of the i-th listed block has links that can be followed. */
  lemma RemovableAt(m: seq<nat>, free: seq<nat>, head: nat, i: nat)
    requires Links(m, free, head) && Spaced(free) && i < |free|
    ensures var h := free[i];
      && h + 3 < |m| && m[h + 2] == LinkTo(free, i - 1) && m[h + 3] == LinkTo(free, i + 1)
      && Removable(m, h)
  {
    assert LinkAt(m, free, i);
    if i > 0 {
      assert LinkAt(m, free, i - 1);
    }
    if i + 1 < |free| {
      assert LinkAt(m, free, i + 1);
    }
  }

  /** Where taking out position i moves the other positions from. */
  function Shifted(i: nat, j: nat): nat {
    if j < i then j else j + 1
  }

  lemma RemovedLinks(m: seq<nat>, free: seq<nat>, head: nat, i: nat)
    requires Links(m, free, head) && Spaced(free) && i < |free|
    requires Removable(m, free[i])
    ensures var h := free[i];
      && Links(Removed(m, h), free[..i] + free[i + 1..], RemovedHead(m, head, h))
      && SameButLinks(m, Removed(m, h), free)
  {
    RemovableAt(m, free, head, i);
    var h := free[i];
    var m' := Removed(m, h);
    var free' := free[..i] + free[i + 1..];
    forall j | 0 <= j < |free'| ensures LinkAt(m', free', j) {
      RemovedLinkAt(m, free, head, i, j);
    }
  }

  /** What free_list_remove leaves in word w, for a well-linked list. */
  lemma RemovedWord(m: seq<nat>, free: seq<nat>, head: nat, i: nat, w: nat)
    requires Links(m, free, head) && Spaced(free) && i < |free| && w < |m|
    requires Removable(m, free[i]) && w != free[i] + 2 && w != free[i] + 3
    ensures |Removed(m, free[i])| == |m|
    ensures Removed(m, free[i])[w] ==
            if i > 0 && w == free[i - 1] + 3 then LinkTo(free, i + 1)
            else if i + 1 < |free| && w == free[i + 1] + 2 then LinkTo(free, i - 1)
            else m[w]
  {
    RemovableAt(m, free, head, i);
  }

  lemma RemovedLinkAt(m: seq<nat>, free: seq<nat>, head: nat, i: nat, j: nat)
    requires Links(m, free, head) && Spaced(free) && i < |free| && j < |free| - 1
    requires Removable(m, free[i])
    ensures LinkAt(Removed(m, free[i]), free[..i] + free[i + 1..], j)
  {
    var k := Shifted(i, j);
    assert LinkAt(m, free, k);
    var free' := free[..i] + free[i + 1..];
    assert free'[j] == free[k];
    var back: int := if j == i then i as int - 1 else k as int - 1;
    var on: int := if j + 1 == i then i + 1 else k + 1;
    assert LinkTo(free', j - 1) == LinkTo(free, back);
    assert LinkTo(free', j + 1) == LinkTo(free, on);
    RemovedWord(m, free, head, i, free[k] + 2);
    RemovedWord(m, free, head, i, free[k] + 3);
    hide Removed, Removable, Shifted;
  }

  lemma ListedSpaced(m: map<nat, nat>, base: nat, end: nat, free: seq<nat>)
    requires Blocks(m, base, end) && Distinct(free) && forall s | s in free :: s in m
    ensures Spaced(free)
    ensures forall s | s in m && s !in free :: Clear(s, free)
  {
    forall i, j | 0 <= i < j < |free| ensures free[i] + 4 <= free[j] || free[j] + 4 <= free[i] {
      assert free[i] in free && free[j] in free;
    }
    forall s, i | s in m && s !in free && 0 <= i < |free| ensures free[i] + 4 <= s || s + 4 <= free[i] {
      assert free[i] in free;
    }
  }

  // ---------------------------------------------------------------- tags

  /** Link words are not tag words. */
  lemma LinksKeepTags(m: seq<nat>, m': seq<nat>, pool: Pool, listed: seq<nat>, but: set<nat>)
    requires Blocks(pool.size, pool.base, pool.end) && TagsBut(m, pool, but)
    requires (forall s | s in listed :: s in pool.size) && SameButLinks(m, m', listed)
    ensures TagsBut(m', pool, but)
  {
    forall s | s in pool.size && s !in but ensures TagAt(m', s, pool.size[s], s in pool.used) {
      assert TagAt(m, s, pool.size[s], s in pool.used);
      var a: int := s;
      assert a - 2 !in listed && a - 3 !in listed && a - 1 !in listed;
      var f: int := s + pool.size[s] - 1;
      assert f - 2 !in listed && f - 3 !in listed;
    }
  }

  /** Writing inside [lo, hi) only. */
  ghost predicate SameOutside(m: seq<nat>, m': seq<nat>, lo: nat, hi: nat) {
    |m'| == |m| && forall w | 0 <= w < |m| && !(lo <= w < hi) :: m'[w] == m[w]
  }

  /** Links outside the rewritten stretch are the same. */
  lemma LinksOutside(m: seq<nat>, m': seq<nat>, free: seq<nat>, head: nat, lo: nat, hi: nat)
    requires Links(m, free, head) && SameOutside(m, m', lo, hi)
    requires forall x | x in free :: x + 4 <= lo || hi <= x + 2
    ensures Links(m', free, head)
  {
    forall i | 0 <= i < |free| ensures LinkAt(m', free, i) {
      assert LinkAt(m, free, i) && free[i] in free;
    }
  }

  // ---------------------------------------------------------------- kmalloc on words

  /** Words after the new free block is cut off the end of block s (heap.c:142-149). */
  function Cut(m: seq<nat>, s: nat, len: nat, need: nat): seq<nat>
    requires MIN_WORDS <= need && need + MIN_WORDS <= len && s + len <= |m|
  {
    m[s + 1 := 8 * need][s + need := HeaderWord(0)][s + need + 1 := 8 * (len - need)][s + len - 1 := 8 * (len - need)]
  }

  /** Words after block s is marked used (heap.c:155-156). */
  function MarkedUsed(m: seq<nat>, s: nat, len: nat): seq<nat>
    requires MIN_WORDS <= len && s + len <= |m|
  {
    m[s := WithFlags(m[s], 1)][s + len - 1 := 8 * len]
  }

  /** Words that no free block covers are the same. */
  ghost predicate SameWhereUsed(m: seq<nat>, m': seq<nat>, pool: Pool) {
    |m'| == |m| && forall w: nat | w < |m| && !pool.FreeWord(w) :: m'[w] == m[w]
  }

  /** The list node of a block at x would lie in free words. */
  ghost predicate NodeFree(pool: Pool, x: nat) {
    pool.FreeWord(x + 2) && pool.FreeWord(x + 3)
  }

  lemma LinksInFree(m: seq<nat>, m': seq<nat>, pool: Pool, listed: seq<nat>)
    requires Blocks(pool.size, pool.base, pool.end) && SameButLinks(m, m', listed)
    requires forall x | x in listed :: NodeFree(pool, x)
    ensures SameWhereUsed(m, m', pool)
  {
    forall w: nat | w < |m| && !pool.FreeWord(w) ensures m'[w] == m[w] {
      var a: int := w;
      assert a - 2 in listed ==> NodeFree(pool, a - 2);
      assert a - 3 in listed ==> NodeFree(pool, a - 3);
    }
  }

  lemma BlockInFree(m: seq<nat>, m': seq<nat>, pool: Pool, s: nat, hi: nat)
    requires pool.IsFree(s) && hi <= s + pool.size[s] && SameOutside(m, m', s, hi)
    ensures SameWhereUsed(m, m', pool)
  {
    forall w: nat | s <= w < hi ensures pool.FreeWord(w) {
      assert pool.Covers(s, w);
    }
  }

  lemma NodesAreFree(pool: Pool, x: nat)
    requires Blocks(pool.size, pool.base, pool.end) && pool.IsFree(x)
    ensures NodeFree(pool, x)
  {
    assert pool.Covers(x, x + 2) && pool.Covers(x, x + 3);
  }

  /** The list without block s, as Take leaves it before the rest is listed. */
  lemma TakeStage1(m0: seq<nat>, m1: seq<nat>, pool: Pool, head: nat, s: nat, i: nat)
    requires pool.Valid() && Image(m0, pool, head) && i < |pool.free| && s == pool.free[i]
    requires Removable(m0, s) && m1 == Removed(m0, s)
    ensures Links(m1, Without(pool.free, s), RemovedHead(m0, head, s))
    ensures Tags(m1, pool) && |m1| == |m0| && SameWhereUsed(m0, m1, pool)
  {
    ListedSpaced(pool.size, pool.base, pool.end, pool.free);
    RemovedLinks(m0, pool.free, head, i);
    WithoutAt(pool.free, i);
    UnlinkKeeps(m0, m1, pool, s);
  }

  lemma UnlinkKeeps(m0: seq<nat>, m1: seq<nat>, pool: Pool, s: nat)
    requires pool.Valid() && Tags(m0, pool) && SameButLinks(m0, m1, pool.free)
    ensures Tags(m1, pool) && SameWhereUsed(m0, m1, pool)
  {
    LinksKeepTags(m0, m1, pool, pool.free, {});
    forall x | x in pool.free ensures NodeFree(pool, x) {
      NodesAreFree(pool, x);
    }
    LinksInFree(m0, m1, pool, pool.free);
  }

  /** Cutting touches neither the links nor the tags of the other blocks. */
  lemma TakeStage2(m1: seq<nat>, pool: Pool, head: nat, s: nat, need: nat)
    requires pool.Valid() && s in pool.free && pool.end <= |m1| && Tags(m1, pool)
    requires Links(m1, Without(pool.free, s), head)
    requires MIN_WORDS <= need && need + MIN_WORDS <= pool.size[s]
    ensures var m2 := Cut(m1, s, pool.size[s], need);
      && Links(m2, Without(pool.free, s), head) && TagsBut(m2, pool.Take(s, need), {s})
      && SameOutside(m1, m2, s, s + pool.size[s]) && m2[s] == HeaderWord(0) && m2[s + 1] == 8 * need
  {
    var len := pool.size[s];
    var m2 := Cut(m1, s, len, need);
    CutWords(m1, pool, s, need);
    CutLinks(m1, m2, pool, head, s);
    CutTags(m1, m2, pool, s, need);
  }

  lemma CutWords(m1: seq<nat>, pool: Pool, s: nat, need: nat)
    requires pool.Valid() && s in pool.free && pool.end <= |m1| && Tags(m1, pool)
    requires MIN_WORDS <= need && need + MIN_WORDS <= pool.size[s]
    ensures s + pool.size[s] <= |m1|
    ensures var m2 := Cut(m1, s, pool.size[s], need);
      SameOutside(m1, m2, s, s + pool.size[s]) && m2[s] == HeaderWord(0) && m2[s + 1] == 8 * need
  {
    assert TagAt(m1, s, pool.size[s], false);
  }

  lemma CutLinks(m1: seq<nat>, m2: seq<nat>, pool: Pool, head: nat, s: nat)
    requires pool.Valid() && s in pool.free && Links(m1, Without(pool.free, s), head)
    requires SameOutside(m1, m2, s, s + pool.size[s])
    ensures Links(m2, Without(pool.free, s), head)
  {
    WithoutMembers(pool.free, s);
    hide Links, SameOutside;
    LinksOutside(m1, m2, Without(pool.free, s), head, s, s + pool.size[s]);
  }

  lemma CutTags(m1: seq<nat>, m2: seq<nat>, pool: Pool, s: nat, need: nat)
    requires Blocks(pool.size, pool.base, pool.end) && s in pool.size && pool.end <= |m1| && Tags(m1, pool)
    requires pool.used <= pool.size.Keys && MIN_WORDS <= need && need + MIN_WORDS <= pool.size[s]
    requires m2 == Cut(m1, s, pool.size[s], need) && SameOutside(m1, m2, s, s + pool.size[s])
    ensures TagsBut(m2, pool.Take(s, need), {s})
  {
    var pool' := pool.Take(s, need);
    assert TagAt(m2, s + need, pool.size[s] - need, false);
    assert s + need !in pool.used;
    forall b | b in pool'.size && b !in {s} ensures TagAt(m2, b, pool'.size[b], b in pool'.used) {
      if b != s + need {
        assert TagAt(m1, b, pool.size[b], b in pool.used);
        assert b + pool.size[b] <= s || s + pool.size[s] <= b;
      }
    }
  }

  lemma TakeStage3(m2: seq<nat>, m3: seq<nat>, pool: Pool, head: nat, s: nat, need: nat)
    requires pool.Valid() && s in pool.free && pool.end <= |m2|
    requires MIN_WORDS <= need && need + MIN_WORDS <= pool.size[s]
    requires Links(m2, Without(pool.free, s), head) && TagsBut(m2, pool.Take(s, need), {s})
    requires head / 8 < |m2| && m3 == Inserted(m2, head, s + need)
    ensures Links(m3, [s + need] + Without(pool.free, s), UserAddr(s + need))
    ensures TagsBut(m3, pool.Take(s, need), {s}) && SameWhereUsed(m2, m3, pool)
    ensures m3[s] == m2[s] && m3[s + 1] == m2[s + 1]
  {
    hide Links, TagsBut, NoGap, Coalesced, SameButLinks, Spaced, Clear, SameWhereUsed;
    var rest := Without(pool.free, s);
    WithoutMembers(pool.free, s);
    ListedSpaced(pool.size, pool.base, pool.end, rest);
    ClearRest(pool, s, need);
    InsertedLinks(m2, rest, head, s + need);
    TakeStage3Tags(m2, m3, pool, s, need);
    TakeStage3Free(m2, m3, pool, s, need);
    TakeStage3Header(m2, m3, pool, s, need);
  }

  lemma TakeStage3Tags(m2: seq<nat>, m3: seq<nat>, pool: Pool, s: nat, need: nat)
    requires pool.Valid() && s in pool.free
    requires MIN_WORDS <= need && need + MIN_WORDS <= pool.size[s]
    requires TagsBut(m2, pool.Take(s, need), {s}) && SameButLinks(m2, m3, [s + need] + Without(pool.free, s))
    ensures TagsBut(m3, pool.Take(s, need), {s})
  {
    hide TagsBut, SameButLinks, NoGap, Coalesced, Distinct;
    TakeValid(pool, s, need);
    LinksKeepTags(m2, m3, pool.Take(s, need), [s + need] + Without(pool.free, s), {s});
  }

  lemma TakeStage3Free(m2: seq<nat>, m3: seq<nat>, pool: Pool, s: nat, need: nat)
    requires pool.Valid() && s in pool.free
    requires MIN_WORDS <= need && need + MIN_WORDS <= pool.size[s]
    requires SameButLinks(m2, m3, [s + need] + Without(pool.free, s))
    ensures SameWhereUsed(m2, m3, pool)
  {
    hide NoGap, Coalesced, SameButLinks;
    var rest := Without(pool.free, s);
    WithoutMembers(pool.free, s);
    forall x | x in [s + need] + rest ensures NodeFree(pool, x) {
      if x in rest {
        NodesAreFree(pool, x);
      } else {
        assert pool.Covers(s, x + 2) && pool.Covers(s, x + 3);
      }
    }
    LinksInFree(m2, m3, pool, [s + need] + rest);
  }

  lemma ClearRest(pool: Pool, s: nat, need: nat)
    requires pool.Valid() && s in pool.free
    requires MIN_WORDS <= need && need + MIN_WORDS <= pool.size[s]
    ensures Clear(s + need, Without(pool.free, s))
  {
    var rest := Without(pool.free, s);
    WithoutMembers(pool.free, s);
    forall i | 0 <= i < |rest| ensures rest[i] + 4 <= s + need || s + need + 4 <= rest[i] {
      assert rest[i] in rest;
    }
  }

  lemma TakeStage3Header(m2: seq<nat>, m3: seq<nat>, pool: Pool, s: nat, need: nat)
    requires pool.Valid() && s in pool.free && pool.end <= |m2|
    requires MIN_WORDS <= need && need + MIN_WORDS <= pool.size[s]
    requires SameButLinks(m2, m3, [s + need] + Without(pool.free, s))
    ensures m3[s] == m2[s] && m3[s + 1] == m2[s + 1]
  {
    var rest := Without(pool.free, s);
    WithoutMembers(pool.free, s);
    var a: int := s;
    assert a - 2 !in rest && a - 3 !in rest && a - 1 !in rest;
  }

  /** Marking the block used completes the picture of Take. */
  lemma TakeStage4(m3: seq<nat>, pool: Pool, head: nat, s: nat, need: nat)
    requires pool.Valid() && s in pool.free && pool.end <= |m3| && MIN_WORDS <= need <= pool.size[s]
    requires Links(m3, pool.Take(s, need).free, head) && TagsBut(m3, pool.Take(s, need), {s})
    requires m3[s] == HeaderWord(0) && m3[s + 1] == 8 * pool.Take(s, need).size[s]
    ensures var pool' := pool.Take(s, need); var m4 := MarkedUsed(m3, s, pool'.size[s]);
      && Image(m4, pool', head) && SameOutside(m3, m4, s, s + pool'.size[s])
  {
    TakeValid(pool, s, need);
    MarkedImage(m3, pool.Take(s, need), head, s);
  }

  /** Marking a block that is no longer listed as used completes the image. */
  lemma MarkedImage(m3: seq<nat>, pool': Pool, head: nat, s: nat)
    requires pool'.Valid() && s in pool'.used && pool'.end <= |m3|
    requires Links(m3, pool'.free, head) && TagsBut(m3, pool', {s}) && s in pool'.size
    requires s + pool'.size[s] <= |m3| && MIN_WORDS <= pool'.size[s]
    requires m3[s] == HeaderWord(0) && m3[s + 1] == 8 * pool'.size[s]
    ensures var m4 := MarkedUsed(m3, s, pool'.size[s]);
      Image(m4, pool', head) && SameOutside(m3, m4, s, s + pool'.size[s])
  {
    var len := pool'.size[s];
    var m4 := MarkedUsed(m3, s, len);
    assert SameOutside(m3, m4, s, s + len);
    HeaderWordParts(0);
    assert TagAt(m4, s, len, true);
    LinksOutside(m3, m4, pool'.free, head, s, s + len);
    hide Links, NoGap, Coalesced, Distinct;
    forall b | b in pool'.size ensures TagAt(m4, b, pool'.size[b], b in pool'.used) {
      if b != s {
        assert TagAt(m3, b, pool'.size[b], b in pool'.used);
      }
    }
  }

  /** The writes of kmalloc can be carried out. */
  predicate Carvable(m: seq<nat>, head: nat, s: nat, len: nat, need: nat) {
    && Removable(m, s) && MIN_WORDS <= need <= len && s + len <= |m|
    && Removed(m, s)[s + 1] == 8 * len && Removed(m, s)[s] == HeaderWord(0)
    && RemovedHead(m, head, s) / 8 < |m|
    && RemovedHead(m, head, s) / 8 != s && RemovedHead(m, head, s) / 8 != s + 1
  }

  /** Words after kmalloc takes block s (heap.c:137-156). */
  function Carved(m: seq<nat>, head: nat, s: nat, len: nat, need: nat): seq<nat>
    requires Carvable(m, head, s, len, need)
  {
    if need + MIN_WORDS <= len then
      MarkedUsed(Inserted(Cut(Removed(m, s), s, len, need), RemovedHead(m, head, s), s + need), s, need)
    else
      MarkedUsed(Removed(m, s), s, len)
  }

  function CarvedHead(m: seq<nat>, head: nat, s: nat, len: nat, need: nat): nat
    requires Carvable(m, head, s, len, need)
  {
    if need + MIN_WORDS <= len then UserAddr(s + need) else RemovedHead(m, head, s)
  }

  lemma CarvableHere(m: seq<nat>, pool: Pool, head: nat, s: nat, i: nat, need: nat)
    requires pool.Valid() && Image(m, pool, head) && i < |pool.free| && s == pool.free[i] && s in pool.free
    requires MIN_WORDS <= need <= pool.size[s]
    ensures Carvable(m, head, s, pool.size[s], need)
  {
    ListedSpaced(pool.size, pool.base, pool.end, pool.free);
    RemovableAt(m, pool.free, head, i);
    TakeStage1(m, Removed(m, s), pool, head, s, i);
    assert TagAt(Removed(m, s), s, pool.size[s], false);
    WithoutMembers(pool.free, s);
    var rest := Without(pool.free, s);
    if rest != [] {
      assert LinkAt(Removed(m, s), rest, 0) && rest[0] in rest;
    }
  }

  /** The words kmalloc writes hold the pool that Take describes, and were all free. */
  lemma CarvedImage(m: seq<nat>, pool: Pool, head: nat, s: nat, i: nat, need: nat, m': seq<nat>, head': nat)
    requires pool.Valid() && Image(m, pool, head) && i < |pool.free| && s == pool.free[i] && s in pool.free
    requires MIN_WORDS <= need <= pool.size[s] && Carvable(m, head, s, pool.size[s], need)
    requires m' == Carved(m, head, s, pool.size[s], need) && head' == CarvedHead(m, head, s, pool.size[s], need)
    ensures pool.Take(s, need).Valid() && Image(m', pool.Take(s, need), head') && SameWhereUsed(m, m', pool)
  {
    hide Blocks, NoGap, Coalesced, Distinct, TagsBut, Links, SameWhereUsed;
    var m1, h1 := Removed(m, s), RemovedHead(m, head, s);
    TakeStage1(m, m1, pool, head, s, i);
    TakeValid(pool, s, need);
    if need + MIN_WORDS <= pool.size[s] {
      CarvedSplit(m1, pool, h1, s, need);
    } else {
      CarvedWhole(m1, pool, h1, s, need);
    }
    SameWhereUsedTrans(m, m1, m', pool);
  }

  lemma SameWhereUsedTrans(m1: seq<nat>, m2: seq<nat>, m3: seq<nat>, pool: Pool)
    requires SameWhereUsed(m1, m2, pool) && SameWhereUsed(m2, m3, pool)
    ensures SameWhereUsed(m1, m3, pool)
  {
  }

  /** What the search loop reads at the i-th list node. */
  lemma ListHeader(m: seq<nat>, pool: Pool, head: nat, i: nat)
    requires pool.Valid() && Image(m, pool, head) && i < |pool.free|
    ensures var h := pool.free[i];
      && 0 < h && h in pool.size && h + 3 < |m| && MagicOf(m[h]) == MAGIC && m[h + 1] == 8 * pool.size[h]
      && m[h + 3] == LinkTo(pool.free, i + 1)
  {
    var h := pool.free[i];
    assert h in pool.free;
    assert TagAt(m, h, pool.size[h], false) && LinkAt(m, pool.free, i);
    HeaderWordParts(0);
  }

  /** CarvableHere and CarvedImage for the block first fit takes. */
  lemma CarveLemma(m: seq<nat>, pool: Pool, head: nat, s: nat, need: nat)
    requires pool.Valid() && Image(m, pool, head) && s in pool.free && s in pool.size
    requires MIN_WORDS <= need <= pool.size[s]
    ensures Carvable(m, head, s, pool.size[s], need) && pool.Take(s, need).Valid()
    ensures pool.base <= s && s + pool.size[s] <= pool.end
    ensures pool.Take(s, need).base == pool.base && pool.Take(s, need).end == pool.end
    ensures forall m', head' | m' == Carved(m, head, s, pool.size[s], need)
        && head' == CarvedHead(m, head, s, pool.size[s], need) ::
              Image(m', pool.Take(s, need), head') && SameWhereUsed(m, m', pool)
  {
    var i :| 0 <= i < |pool.free| && pool.free[i] == s;
    CarvableHere(m, pool, head, s, i, need);
    CarvedImage(m, pool, head, s, i, need, Carved(m, head, s, pool.size[s], need),
                CarvedHead(m, head, s, pool.size[s], need));
  }

  lemma CarvedWhole(m1: seq<nat>, pool: Pool, head: nat, s: nat, need: nat)
    requires pool.Valid() && s in pool.free && pool.end <= |m1| && Tags(m1, pool)
    requires Links(m1, Without(pool.free, s), head)
    requires MIN_WORDS <= need <= pool.size[s] < need + MIN_WORDS
    ensures s + pool.size[s] <= |m1|
    ensures var m2 := MarkedUsed(m1, s, pool.size[s]);
      && Image(m2, pool.Take(s, need), head) && SameWhereUsed(m1, m2, pool)
  {
    assert TagAt(m1, s, pool.size[s], false);
    var pool' := pool.Take(s, need);
    forall b | b in pool'.size && b !in {s} ensures TagAt(m1, b, pool'.size[b], b in pool'.used) {
      assert TagAt(m1, b, pool.size[b], b in pool.used);
    }
    TakeStage4(m1, pool, head, s, need);
    BlockInFree(m1, MarkedUsed(m1, s, pool.size[s]), pool, s, s + pool.size[s]);
  }

  lemma CarvedSplit(m1: seq<nat>, pool: Pool, head: nat, s: nat, need: nat)
    requires pool.Valid() && s in pool.free && pool.end <= |m1| && Tags(m1, pool)
    requires Links(m1, Without(pool.free, s), head) && head / 8 < |m1| && s + pool.size[s] <= |m1|
    requires MIN_WORDS <= need && need + MIN_WORDS <= pool.size[s]
    ensures var m4 := MarkedUsed(Inserted(Cut(m1, s, pool.size[s], need), head, s + need), s, need);
      && Image(m4, pool.Take(s, need), UserAddr(s + need)) && SameWhereUsed(m1, m4, pool)
  {
    hide Blocks, NoGap, Coalesced, Distinct, TagsBut, Links;
    var m2 := Cut(m1, s, pool.size[s], need);
    var m3 := Inserted(m2, head, s + need);
    TakeStage2(m1, pool, head, s, need);
    BlockInFree(m1, m2, pool, s, s + pool.size[s]);
    TakeStage3(m2, m3, pool, head, s, need);
    TakeStage4(m3, pool, UserAddr(s + need), s, need);
    BlockInFree(m3, MarkedUsed(m3, s, need), pool, s, s + need);
  }

  // ---------------------------------------------------------------- kheap_init on words

  /** Words after kheap_init (heap.c:107-115). */
  function Founded(m: seq<nat>, s: nat, len: nat): seq<nat>
    requires MIN_WORDS <= len && s + len <= |m|
  {
    Inserted(m[s := HeaderWord(0)][s + 1 := 8 * len][s + len - 1 := 8 * len], 0, s)
  }

  lemma FoundedImage(m: seq<nat>, s: nat, len: nat)
    requires 0 < s && MIN_WORDS <= len && s + len <= |m|
    ensures Fresh(s, s + len).Valid() && Image(Founded(m, s, len), Fresh(s, s + len), UserAddr(s))
    ensures SameOutside(m, Founded(m, s, len), s, s + len)
  {
    var m' := Founded(m, s, len);
    FreshValid(s, s + len);
    assert LinkAt(m', [s], 0);
    assert TagAt(m', s, len, false);
  }

  // ---------------------------------------------------------------- kfree on words

  /** Words after block s is marked free (heap.c:178-180). */
  function MarkedFree(m: seq<nat>, s: nat, len: nat): seq<nat>
    requires MIN_WORDS <= len && s + len <= |m|
  {
    m[s := WithFlags(m[s], 0)][s + len - 1 := 8 * len]
  }

  /** Words after block s of a words has swallowed the b words behind it
      (heap.c:186-187 and 195-196). */
  function Joined(m: seq<nat>, s: nat, a: nat, b: nat): seq<nat>
    requires MIN_WORDS <= a && s + a + b <= |m|
  {
    m[s + 1 := 8 * (a + b)][s + a + b - 1 := 8 * (a + b)]
  }

  lemma GiveStage1(m0: seq<nat>, pool: Pool, head: nat, s: nat)
    requires pool.Valid() && Image(m0, pool, head) && s in pool.used
    ensures var len := pool.size[s]; s + len <= |m0| && var m1 := MarkedFree(m0, s, len);
      && Tags(m1, pool.(used := pool.used - {s})) && Links(m1, pool.free, head)
      && SameOutside(m0, m1, s, s + len)
  {
    var len := pool.size[s];
    assert TagAt(m0, s, len, true);
    var m1 := MarkedFree(m0, s, len);
    assert SameOutside(m0, m1, s, s + len);
    HeaderWordParts(1);
    assert TagAt(m1, s, len, false);
    LinksOutside(m0, m1, pool.free, head, s, s + len);
    var marked := pool.(used := pool.used - {s});
    forall b | b in marked.size ensures TagAt(m1, b, marked.size[b], b in marked.used) {
      assert TagAt(m0, b, pool.size[b], b in pool.used);
    }
  }

  /** Taking block x off a list of blocks. */
  lemma Unlink(m: seq<nat>, pool: Pool, head: nat, x: nat)
    requires Blocks(pool.size, pool.base, pool.end) && Tags(m, pool) && Links(m, pool.free, head)
    requires Distinct(pool.free) && x in pool.free && forall b | b in pool.free :: b in pool.size
    ensures Removable(m, x)
    ensures var m' := Removed(m, x);
      && Links(m', Without(pool.free, x), RemovedHead(m, head, x))
      && Tags(m', pool) && SameButLinks(m, m', pool.free)
  {
    var i :| 0 <= i < |pool.free| && pool.free[i] == x;
    ListedSpaced(pool.size, pool.base, pool.end, pool.free);
    RemovableAt(m, pool.free, head, i);
    RemovedLinks(m, pool.free, head, i);
    WithoutAt(pool.free, i);
    LinksKeepTags(m, Removed(m, x), pool, pool.free, {});
  }

  /** Block s and the block behind it, both off the list, become one. */
  lemma JoinTags(m: seq<nat>, m': seq<nat>, pool: Pool, s: nat)
    requires Blocks(pool.size, pool.base, pool.end) && Tags(m, pool) && pool.end <= |m|
    requires s in pool.size && End(pool.size, s) in pool.size && s !in pool.used
    requires m' == Joined(m, s, pool.size[s], pool.size[End(pool.size, s)])
    ensures Tags(m', pool.(size := Merge(pool.size, s)))
    ensures SameOutside(m, m', s, End(pool.size, End(pool.size, s)))
  {
    var next := End(pool.size, s);
    assert TagAt(m, s, pool.size[s], false);
    assert TagAt(m', s, pool.size[s] + pool.size[next], false);
    var pool' := pool.(size := Merge(pool.size, s));
    forall b | b in pool'.size ensures TagAt(m', b, pool'.size[b], b in pool'.used) {
      if b != s {
        JoinKeepsTag(m, m', pool, s, b);
      }
    }
  }

  lemma JoinKeepsTag(m: seq<nat>, m': seq<nat>, pool: Pool, s: nat, b: nat)
    requires Blocks(pool.size, pool.base, pool.end) && Tags(m, pool) && pool.end <= |m|
    requires s in pool.size && End(pool.size, s) in pool.size && b in pool.size && b != s && b != End(pool.size, s)
    requires m' == Joined(m, s, pool.size[s], pool.size[End(pool.size, s)])
    ensures TagAt(m', b, pool.size[b], b in pool.used)
  {
    assert TagAt(m, b, pool.size[b], b in pool.used);
    assert b + pool.size[b] <= s || End(pool.size, End(pool.size, s)) <= b;
  }

  lemma JoinLinks(m: seq<nat>, m': seq<nat>, pool: Pool, head: nat, s: nat)
    requires Tiled(pool.size, pool.base, pool.end) && Links(m, pool.free, head)
    requires forall b | b in pool.free :: b in pool.size
    requires s in pool.size && End(pool.size, s) in pool.size
    requires s !in pool.free && End(pool.size, s) !in pool.free
    requires SameOutside(m, m', s, End(pool.size, End(pool.size, s)))
    ensures Links(m', pool.free, head)
  {
    LinksOutside(m, m', pool.free, head, s, End(pool.size, End(pool.size, s)));
  }

  /** Listing block h. */
  lemma Enlist(m: seq<nat>, pool: Pool, head: nat, h: nat)
    requires Blocks(pool.size, pool.base, pool.end) && Tags(m, pool) && Links(m, pool.free, head) && pool.end <= |m|
    requires Distinct(pool.free) && h in pool.size && h !in pool.free && forall b | b in pool.free :: b in pool.size
    ensures head / 8 < |m|
    ensures Image(Inserted(m, head, h), pool.(free := [h] + pool.free), UserAddr(h))
    ensures SameButLinks(m, Inserted(m, head, h), [h] + pool.free)
  {
    ListedSpaced(pool.size, pool.base, pool.end, pool.free);
    InsertedLinks(m, pool.free, head, h);
    LinksKeepTags(m, Inserted(m, head, h), pool, [h] + pool.free, {});
  }

  /** Words outside the freed block s and the blocks that were free are the same. */
  ghost predicate SameButFreed(m: seq<nat>, m': seq<nat>, pool: Pool, s: nat) {
    |m'| == |m| && forall w: nat | w < |m| && !pool.FreeWord(w) && !pool.Covers(s, w) :: m'[w] == m[w]
  }

  lemma LinksInFreed(m: seq<nat>, m': seq<nat>, pool: Pool, s: nat, listed: seq<nat>)
    requires pool.Valid() && s in pool.size && SameButLinks(m, m', listed)
    requires forall x | x in listed :: x == s || pool.IsFree(x)
    ensures SameButFreed(m, m', pool, s)
  {
    forall w: nat | w < |m| && !pool.FreeWord(w) && !pool.Covers(s, w) ensures m'[w] == m[w] {
      var a: int := w;
      if a - 2 in listed || a - 3 in listed {
        var x: nat := if a - 2 in listed then a - 2 else a - 3;
        assert pool.Covers(x, w);
        assert false;
      }
    }
  }

  /** Rewriting blocks a and b, each of them freed or free, which lie side by side. */
  lemma StretchInFreed(m: seq<nat>, m': seq<nat>, pool: Pool, s: nat, lo: nat, hi: nat)
    requires pool.Valid() && s in pool.size && SameOutside(m, m', lo, hi)
    requires forall w: nat | lo <= w < hi :: pool.FreeWord(w) || pool.Covers(s, w)
    ensures SameButFreed(m, m', pool, s)
  {
  }

  lemma SameButFreedRefl(m: seq<nat>, pool: Pool, s: nat)
    ensures SameButFreed(m, m, pool, s)
  {
  }

  /** What kfree reads about the block behind s. */
  lemma NextHeader(m: seq<nat>, pool: Pool, s: nat)
    requires pool.Valid() && s in pool.used && Tags(m, pool.(used := pool.used - {s})) && pool.end <= |m|
    ensures s + 1 < |m| && m[s + 1] == 8 * pool.size[s] && End(pool.size, s) <= pool.end
    ensures var next := End(pool.size, s);
      pool.IsFree(next) <==> next < pool.end && MagicOf(m[next]) == MAGIC && FlagsOf(m[next]) % 2 == 0
    ensures !pool.IsFree(End(pool.size, s)) ==> pool.GrowRight(s) == pool.(used := pool.used - {s})
  {
    assert TagAt(m, s, pool.size[s], false);
    var next := End(pool.size, s);
    if next in pool.size {
      assert TagAt(m, next, pool.size[next], next in pool.used);
      HeaderWordParts(if next in pool.used then 1 else 0);
    }
  }

  /** Taking the free block behind s off the list and joining it to s. */
  lemma AbsorbNextImage(m1: seq<nat>, pool: Pool, head: nat, s: nat)
    requires pool.Valid() && s in pool.used && pool.IsFree(End(pool.size, s)) && pool.end <= |m1|
    requires Tags(m1, pool.(used := pool.used - {s})) && Links(m1, pool.free, head)
    ensures var next := End(pool.size, s); Removable(m1, next) && var m2 := Removed(m1, next);
      && |m2| == |m1| && s + pool.size[s] + pool.size[next] <= pool.end
      && m2[s + 1] == 8 * pool.size[s] && m2[next + 1] == 8 * pool.size[next]
      && MIN_WORDS <= pool.size[s] && pool.base <= s
      && var m3 := Joined(m2, s, pool.size[s], pool.size[next]);
      && Tags(m3, pool.GrowRight(s)) && Links(m3, pool.GrowRight(s).free, RemovedHead(m1, head, next))
      && SameButFreed(m1, m3, pool, s)
  {
    var next := End(pool.size, s);
    var marked := pool.(used := pool.used - {s});
    Unlink(m1, marked, head, next);
    var m2 := Removed(m1, next);
    assert TagAt(m2, s, pool.size[s], false) && TagAt(m2, next, pool.size[next], false);
    GrowRightImage(m1, m2, Joined(m2, s, pool.size[s], pool.size[next]), pool, RemovedHead(m1, head, next), s);
  }

  lemma GrowRightImage(m1: seq<nat>, m2: seq<nat>, m3: seq<nat>, pool: Pool, head: nat, s: nat)
    requires pool.Valid() && s in pool.used && pool.IsFree(End(pool.size, s)) && pool.end <= |m1| == |m2|
    requires var marked := pool.(used := pool.used - {s}); var next := End(pool.size, s);
      && Tags(m2, marked) && Links(m2, Without(pool.free, next), head) && SameButLinks(m1, m2, pool.free)
    requires m3 == Joined(m2, s, pool.size[s], pool.size[End(pool.size, s)])
    ensures Tags(m3, pool.GrowRight(s)) && Links(m3, pool.GrowRight(s).free, head)
    ensures SameButFreed(m1, m3, pool, s)
  {
    var next := End(pool.size, s);
    WithoutMembers(pool.free, next);
    var marked := Pool(pool.base, pool.end, pool.size, pool.used - {s}, Without(pool.free, next));
    assert Tags(m2, marked);
    JoinTags(m2, m3, marked, s);
    JoinLinks(m2, m3, marked, head, s);
    LinksInFreed(m1, m2, pool, s, pool.free);
    forall w: nat | s <= w < End(pool.size, next) ensures pool.FreeWord(w) || pool.Covers(s, w) {
      if w >= next {
        assert pool.Covers(next, w);
      }
    }
    StretchInFreed(m2, m3, pool, s, s, End(pool.size, next));
  }

  /** The pool between the two merges: s is free but not listed. */
  ghost predicate Grown(m: seq<nat>, pool: Pool, head: nat, s: nat)
    requires s in pool.size
  {
    pool.end <= |m| && Tags(m, pool.GrowRight(s)) && Links(m, pool.GrowRight(s).free, head)
  }

  /** What kfree reads about the block before s. */
  lemma PrevHeader(m: seq<nat>, pool: Pool, head: nat, s: nat, p: nat)
    requires pool.Valid() && s in pool.used && pool.Before(p, s) && Grown(m, pool, head, s)
    ensures pool.base <= s < |m| && (s > pool.base <==> p != s)
    ensures p != s ==>
      && m[s - 1] == 8 * pool.size[p] && p == s - pool.size[p]
      && (pool.GrowRight(s).JoinsLeft(s, p) <==> MagicOf(m[p]) == MAGIC && FlagsOf(m[p]) % 2 == 0)
    ensures var grown := pool.GrowRight(s);
      && s in grown.size && p in grown.size && (p == s || End(grown.size, p) == s)
      && (!grown.JoinsLeft(s, p) ==> grown.AbsorbLeft(s, p) == grown)
  {
    if p != s {
      var grown := pool.GrowRight(s);
      assert p in grown.size && grown.size[p] == pool.size[p];
      assert TagAt(m, p, pool.size[p], p in grown.used);
      HeaderWordParts(if p in grown.used then 1 else 0);
    }
  }

  /** Facts about the blocks between the two merges. */
  lemma GrownBlocks(pool: Pool, s: nat, p: nat)
    requires pool.Valid() && s in pool.used && pool.Before(p, s) && pool.GrowRight(s).JoinsLeft(s, p)
    ensures var grown := pool.GrowRight(s);
      && Tiled(grown.size, grown.base, grown.end) && Distinct(grown.free)
      && p in grown.free && s !in grown.free
      && s in grown.size && p in grown.size && End(grown.size, p) == s && grown.size[p] == pool.size[p]
      && (forall b | b in grown.free :: b in grown.size && pool.IsFree(b))
      && (forall w: nat | p <= w < End(grown.size, s) :: pool.FreeWord(w) || pool.Covers(s, w))
  {
    var grown := pool.GrowRight(s);
    GrowRightTiled(pool, s);
    GrowRightListed(pool, s);
    forall w: nat | p <= w < End(grown.size, s) ensures pool.FreeWord(w) || pool.Covers(s, w) {
      assert pool.Covers(p, w) || pool.Covers(s, w) || pool.Covers(End(pool.size, s), w);
    }
  }

  /** Taking the free block before s off the list and joining s to it. */
  lemma AbsorbPrevImage(m1: seq<nat>, pool: Pool, head: nat, s: nat, p: nat)
    requires pool.Valid() && s in pool.used && pool.Before(p, s) && pool.GrowRight(s).JoinsLeft(s, p)
    requires Grown(m1, pool, head, s)
    ensures Removable(m1, p)
    ensures var grown := pool.GrowRight(s); var m2 := Removed(m1, p);
      && s in grown.size && p in grown.size && s + 1 < |m2| == |m1| && p + grown.size[p] + grown.size[s] <= pool.end
      && m2[p + 1] == 8 * grown.size[p] && m2[s + 1] == 8 * grown.size[s] && MIN_WORDS <= grown.size[p]
      && pool.base <= p
      && var m3 := Joined(m2, p, grown.size[p], grown.size[s]);
      && Tags(m3, grown.AbsorbLeft(s, p)) && Links(m3, grown.AbsorbLeft(s, p).free, RemovedHead(m1, head, p))
      && SameButFreed(m1, m3, pool, s)
  {
    var grown := pool.GrowRight(s);
    GrownBlocks(pool, s, p);
    hide Coalesced, TagsBut, Pool.Valid, Pool.GrowRight;
    Unlink(m1, grown, head, p);
    var m2 := Removed(m1, p);
    GrownHeaders(m2, grown, s, p);
    AbsorbPrevJoin(m1, m2, Joined(m2, p, grown.size[p], grown.size[s]), pool, RemovedHead(m1, head, p), s, p);
  }

  lemma GrownHeaders(m: seq<nat>, grown: Pool, s: nat, p: nat)
    requires Blocks(grown.size, grown.base, grown.end) && s in grown.size && p in grown.size && End(grown.size, p) == s
    requires Tags(m, grown)
    ensures s + 1 < |m| && m[p + 1] == 8 * grown.size[p] && m[s + 1] == 8 * grown.size[s]
    ensures p + grown.size[p] + grown.size[s] <= grown.end && MIN_WORDS <= grown.size[p] && grown.base <= p
  {
    assert TagAt(m, p, grown.size[p], p in grown.used) && TagAt(m, s, grown.size[s], s in grown.used);
  }

  lemma AbsorbPrevJoin(m1: seq<nat>, m2: seq<nat>, m3: seq<nat>, pool: Pool, head: nat, s: nat, p: nat)
    requires pool.Valid() && s in pool.used && pool.Before(p, s) && pool.GrowRight(s).JoinsLeft(s, p)
    requires var grown := pool.GrowRight(s);
      && pool.end <= |m1| == |m2| && Tags(m2, grown) && Links(m2, Without(grown.free, p), head)
      && SameButLinks(m1, m2, grown.free)
      && s in grown.size && p in grown.size && MIN_WORDS <= grown.size[p] && p + grown.size[p] + grown.size[s] <= |m2|
      && m3 == Joined(m2, p, grown.size[p], grown.size[s])
    ensures Tags(m3, pool.GrowRight(s).AbsorbLeft(s, p)) && Links(m3, Without(pool.GrowRight(s).free, p), head)
    ensures SameButFreed(m1, m3, pool, s)
  {
    var grown := pool.GrowRight(s);
    GrownBlocks(pool, s, p);
    hide Coalesced, TagsBut, Pool.GrowRight, SameButLinks, SameOutside, Links, Blocks;
    WithoutMembers(grown.free, p);
    var g := grown.(free := Without(grown.free, p));
    SameTags(m2, grown, g);
    JoinTags(m2, m3, g, p);
    JoinLinks(m2, m3, g, head, p);
    LinksInFreed(m1, m2, pool, s, grown.free);
    StretchInFreed(m2, m3, pool, s, p, End(grown.size, s));
    SameButFreedTrans(m1, m2, m3, pool, s);
  }

  lemma SameTags(m: seq<nat>, a: Pool, b: Pool)
    requires Tags(m, a) && b == a.(free := b.free)
    ensures Tags(m, b)
  {
  }

  lemma SameButFreedTrans(m1: seq<nat>, m2: seq<nat>, m3: seq<nat>, pool: Pool, s: nat)
    requires SameButFreed(m1, m2, pool, s) && SameButFreed(m2, m3, pool, s)
    ensures SameButFreed(m1, m3, pool, s)
  {
  }

  /** Listing the merged block completes the picture of Give. */
  lemma EnlistFreed(m: seq<nat>, pool: Pool, head: nat, s: nat, p: nat)
    requires pool.Valid() && s in pool.used && pool.Before(p, s) && pool.end <= |m|
    requires s in pool.GrowRight(s).size && p in pool.GrowRight(s).size
    requires p == s || End(pool.GrowRight(s).size, p) == s
    requires Tags(m, pool.GrowRight(s).AbsorbLeft(s, p)) && Links(m, pool.GrowRight(s).AbsorbLeft(s, p).free, head)
    ensures var h := if pool.GrowRight(s).JoinsLeft(s, p) then p else s;
      && h + 3 < |m| && head / 8 < |m|
      && Image(Inserted(m, head, h), pool.Give(s, p), UserAddr(h))
      && SameButFreed(m, Inserted(m, head, h), pool, s)
  {
    var grown := pool.GrowRight(s);
    var h := if grown.JoinsLeft(s, p) then p else s;
    var joined := grown.AbsorbLeft(s, p);
    EnlistFacts(pool, s, p);
    hide Coalesced, NoGap, TagsBut, Pool.GrowRight, Pool.AbsorbLeft, Links, Distinct, Pool.Valid;
    Enlist(m, joined, head, h);
    LinksInFreed(m, Inserted(m, head, h), pool, s, [h] + joined.free);
  }

  lemma EnlistFacts(pool: Pool, s: nat, p: nat)
    requires pool.Valid() && s in pool.used && pool.Before(p, s)
    ensures s in pool.GrowRight(s).size && p in pool.GrowRight(s).size
    ensures p == s || End(pool.GrowRight(s).size, p) == s
    ensures var grown := pool.GrowRight(s); var joined := grown.AbsorbLeft(s, p);
      var h := if grown.JoinsLeft(s, p) then p else s;
      && pool.Give(s, p) == joined.(free := [h] + joined.free) && joined.end == pool.end
      && Blocks(joined.size, joined.base, joined.end) && Distinct(joined.free)
      && h in joined.size && h !in joined.free && (h == s || pool.IsFree(h))
      && (forall b | b in joined.free :: b in joined.size && pool.IsFree(b))
  {
    var grown := pool.GrowRight(s);
    var joined := grown.AbsorbLeft(s, p);
    var h := if grown.JoinsLeft(s, p) then p else s;
    GiveValid(pool, s, p);
    GrowRightListed(pool, s);
    WithoutMembers(grown.free, p);
    ConsDistinct(h, joined.free);
    assert forall b | b in joined.free :: b in pool.Give(s, p).free;
    assert h in pool.Give(s, p).free;
  }

  /** What kfree reads about the block it is given. */
  lemma OwnHeader(m: seq<nat>, pool: Pool, head: nat, s: nat)
    requires pool.Valid() && Image(m, pool, head) && s in pool.size
    ensures s + 1 < |m| && m[s + 1] == 8 * pool.size[s] && MIN_WORDS <= pool.size[s] && s + pool.size[s] <= |m|
    ensures MagicOf(m[s]) == MAGIC && (FlagsOf(m[s]) % 2 == 0 <==> s !in pool.used)
  {
    assert TagAt(m, s, pool.size[s], s in pool.used);
    HeaderWordParts(if s in pool.used then 1 else 0);
  }

  /** A write into a block in use keeps the image exactly if it leaves header and footer as
      they are: callers may do as they like with the user area, and with nothing else. */
  lemma UserWriteIff(m: seq<nat>, pool: Pool, head: nat, t: nat, w: nat, x: nat)
    requires pool.Valid() && Image(m, pool, head) && t in pool.used && t <= w < t + pool.size[t]
    ensures w < |m|
    ensures Image(m[w := x], pool, head) <==> t + 2 <= w < t + pool.size[t] - 1 || x == m[w]
  {
    var m' := m[w := x];
    assert TagAt(m, t, pool.size[t], true);
    if t + 2 <= w < t + pool.size[t] - 1 {
      UserWriteTags(m, pool, t, w, x);
      UserWriteLinks(m, pool, head, t, w, x);
    } else if x == m[w] {
      assert m' == m;
    } else {
      assert !TagAt(m', t, pool.size[t], true);
    }
  }

  lemma UserWriteTags(m: seq<nat>, pool: Pool, t: nat, w: nat, x: nat)
    requires pool.Valid() && pool.end <= |m| && Tags(m, pool) && t in pool.used && t + 2 <= w < t + pool.size[t] - 1
    ensures Tags(m[w := x], pool)
  {
    hide Coalesced, NoGap, Distinct;
    forall s | s in pool.size ensures TagAt(m[w := x], s, pool.size[s], s in pool.used) {
      assert TagAt(m, s, pool.size[s], s in pool.used);
      assert s < t ==> s + pool.size[s] <= t;
      assert t < s ==> t + pool.size[t] <= s;
    }
  }

  lemma UserWriteLinks(m: seq<nat>, pool: Pool, head: nat, t: nat, w: nat, x: nat)
    requires pool.Valid() && pool.end <= |m| && Links(m, pool.free, head) && t in pool.used && t <= w < t + pool.size[t]
    ensures Links(m[w := x], pool.free, head)
  {
    hide Coalesced, NoGap, Distinct;
    var m' := m[w := x];
    forall i | 0 <= i < |pool.free| ensures LinkAt(m', pool.free, i) {
      assert LinkAt(m, pool.free, i);
      var s := pool.free[i];
      assert s in pool.free;
      assert s < t ==> s + pool.size[s] <= t;
      assert t < s ==> t + pool.size[t] <= s;
    }
  }

  /** Marking s free: the state CoalesceNext starts from. */
  lemma MarkedFreeImage(m0: seq<nat>, m1: seq<nat>, pool: Pool, head: nat, s: nat)
    requires pool.Valid() && Image(m0, pool, head) && s in pool.used
    requires s + pool.size[s] <= |m0| && MIN_WORDS <= pool.size[s] && m1 == MarkedFree(m0, s, pool.size[s])
    ensures Tags(m1, pool.(used := pool.used - {s})) && Links(m1, pool.free, head)
    ensures SameButFreed(m0, m1, pool, s)
  {
    GiveStage1(m0, pool, head, s);
    StretchInFreed(m0, m1, pool, s, s, s + pool.size[s]);
  }

  lemma ConsDistinct(x: nat, q: seq<nat>)
    requires Distinct([x] + q)
    ensures Distinct(q) && x !in q
  {
    forall i, j | 0 <= i < j < |q| ensures q[i] != q[j] {
      assert ([x] + q)[i + 1] == q[i] && ([x] + q)[j + 1] == q[j];
    }
    forall i | 0 <= i < |q| ensures q[i] != x {
      assert ([x] + q)[0] == x && ([x] + q)[i + 1] == q[i];
    }
  }

  /** kmalloc changes no word of a live block: not its user area, nor its tags. */
  lemma KmallocKeepsLive(m: seq<nat>, m': seq<nat>, pool: Pool, t: nat, w: nat)
    requires pool.Valid() && SameWhereUsed(m, m', pool)
    requires t in pool.used && pool.Covers(t, w) && w < |m|
    ensures m'[w] == m[w]
  {
    assert UsedWord(pool, w);
    FreeIffNotUsed(pool, w);
  }

  /** Nor does kfree of block s change a word of any other live block. */
  lemma KfreeKeepsLive(m: seq<nat>, m': seq<nat>, pool: Pool, s: nat, t: nat, w: nat)
    requires pool.Valid() && s in pool.used && SameButFreed(m, m', pool, s)
    requires t in pool.used && t != s && pool.Covers(t, w) && w < |m|
    ensures m'[w] == m[w]
  {
    assert UsedWord(pool, w);
    FreeIffNotUsed(pool, w);
    TilesExactly(pool, w);
  }

  /** Neither writes outside the pool. */
  lemma OutsidePoolKept(m: seq<nat>, m': seq<nat>, pool: Pool, w: nat)
    requires pool.Valid() && !(pool.base <= w < pool.end) && w < |m|
    requires SameWhereUsed(m, m', pool) || exists s: nat :: s in pool.size && SameButFreed(m, m', pool, s)
    ensures m'[w] == m[w]
  {
    FreeIffNotUsed(pool, w);
  }
}

/** kernel/mm/heap.c: the allocator, working in place on the words of memory. */
module KernelHeap {
  import opened Basics
  import opened HeapPool
  import opened HeapImage

  class Heap {
    /** All of memory, 8 bytes a word. */
    const mem: array<nat>
    var heapBase: nat
    var heapEnd: nat
    var heapSize: nat
    var freeList: nat
    ghost var pool: Pool

    constructor (memory: array<nat>)
      ensures mem == memory && heapBase == 0
    {
      mem := memory;
      heapBase, heapEnd, heapSize, freeList := 0, 0, 0, 0;
      pool := Pool(0, 0, map[], {}, []);
    }

    ghost predicate Valid()
      reads this, mem
    {
      heapBase != 0 ==>
        && pool.Valid() && Image(mem[..], pool, freeList)
        && heapBase == 8 * pool.base && heapEnd == 8 * pool.end && heapSize == heapEnd - heapBase
        && heapSize + MIN_BLOCK < WRAP_64
    }

    /** free_list_insert (heap.c:78-84). */
    method FreeListInsert(hdr: nat)
      requires hdr + 3 < mem.Length && freeList / 8 < mem.Length
      modifies mem, this`freeList
      ensures mem[..] == Inserted(old(mem[..]), old(freeList), hdr)
      ensures freeList == UserAddr(hdr)
    {
      var node := UserAddr(hdr);
      mem[node / 8 + 1] := freeList;
      mem[node / 8] := 0;
      if freeList != 0 {
        mem[freeList / 8] := node;
      }
      freeList := node;
    }

    /** free_list_remove (heap.c:86-93). */
    method FreeListRemove(hdr: nat)
      requires Removable(mem[..], hdr)
      modifies mem, this`freeList
      ensures mem[..] == Removed(old(mem[..]), hdr)
      ensures freeList == RemovedHead(old(mem[..]), old(freeList), hdr)
    {
      var node := hdr + 2;
      if mem[node] != 0 {
        mem[mem[node] / 8 + 1] := mem[node + 1];
      } else {
        freeList := mem[node + 1];
      }
      if mem[node + 1] != 0 {
        mem[mem[node + 1] / 8] := mem[node];
      }
      mem[node + 1] := 0;
      mem[node] := 0;
    }
  
    /** kheap_init (heap.c:98-117): one free block over the whole pool, or nothing when
        the region is refused. */
    method Init(base: nat, size: nat)
      requires base % 8 == 0 && size % 8 == 0 && base + size <= 8 * mem.Length && size + MIN_BLOCK < WRAP_64
      requires Valid()
      modifies mem, this
      ensures Valid()
      ensures base == 0 || size < 4 * MIN_BLOCK ==> unchanged(this) && unchanged(mem)
      ensures base != 0 && size >= 4 * MIN_BLOCK ==>
                && heapBase == base && pool == Fresh(base / 8, (base + size) / 8)
                && SameOutside(old(mem[..]), mem[..], base / 8, (base + size) / 8)
    {
      hide Blocks, NoGap, Coalesced, Distinct, TagsBut, Links, SameOutside;
      if base == 0 || size < 4 * MIN_BLOCK {
        return;
      }
      heapBase := base;
      heapEnd := base + size;
      heapSize := size;
      freeList := 0;
      pool := Fresh(base / 8, (base + size) / 8);
      FoundedImage(mem[..], base / 8, size / 8);
      Found(base / 8, size);
    }

    /** The single block of a new pool (heap.c:107-115). */
    method Found(hdr: nat, size: nat)
      requires size % 8 == 0 && size >= MIN_BLOCK && hdr + size / 8 <= mem.Length && freeList == 0
      modifies mem, this`freeList
      ensures mem[..] == Founded(old(mem[..]), hdr, size / 8) && freeList == UserAddr(hdr)
    {
      mem[hdr] := HeaderWord(0);
      mem[hdr + 1] := size;
      mem[hdr + mem[hdr + 1] / 8 - 1] := size;
      FreeListInsert(hdr);
    }

    /** The part of kmalloc after a block is found (heap.c:137-160). */
    method TakeBlock(hdr: nat, need: nat, ghost len: nat)
      requires need % 8 == 0 && Carvable(mem[..], freeList, hdr, len, need / 8) && 8 * len + MIN_BLOCK < WRAP_64
      modifies mem, this`freeList
      ensures mem[..] == Carved(old(mem[..]), old(freeList), hdr, len, need / 8)
      ensures freeList == CarvedHead(old(mem[..]), old(freeList), hdr, len, need / 8)
    {
      FreeListRemove(hdr);
      if mem[hdr + 1] >= AddU64(need, MIN_BLOCK) {
        var newHdr := CutBlock(hdr, need, len);
        FreeListInsert(newHdr);
      }
      MarkUsed(hdr);
    }

    /** heap.c:142-149. */
    method CutBlock(hdr: nat, need: nat, ghost len: nat) returns (newHdr: nat)
      requires need % 8 == 0 && MIN_BLOCK <= need && need / 8 + MIN_WORDS <= len && hdr + len <= mem.Length
      requires mem[hdr + 1] == 8 * len
      modifies mem
      ensures mem[..] == Cut(old(mem[..]), hdr, len, need / 8) && newHdr == hdr + need / 8
    {
      var remainder := mem[hdr + 1] - need;
      mem[hdr + 1] := need;
      newHdr := hdr + mem[hdr + 1] / 8;
      mem[newHdr] := HeaderWord(0);
      mem[newHdr + 1] := remainder;
      mem[newHdr + mem[newHdr + 1] / 8 - 1] := remainder;
    }

    /** heap.c:155-156. */
    method MarkUsed(hdr: nat)
      requires hdr + 1 < mem.Length && mem[hdr + 1] % 8 == 0 && MIN_BLOCK <= mem[hdr + 1]
      requires hdr + mem[hdr + 1] / 8 <= mem.Length
      modifies mem
      ensures mem[..] == MarkedUsed(old(mem[..]), hdr, old(mem[hdr + 1]) / 8)
    {
      mem[hdr] := WithFlags(mem[hdr], 1);
      mem[hdr + mem[hdr + 1] / 8 - 1] := mem[hdr + 1];
    }

    /** The search loop of kmalloc (heap.c:131-164): the first block of at least need
        bytes in list order, or 0. */
    method Search(need: nat) returns (hdr: nat)
      requires Valid() && heapBase != 0 && need % 8 == 0
      ensures forall s | s in pool.free :: s in pool.size
      ensures if pool.CanFit(need / 8) then hdr == pool.Chosen(need / 8) && hdr != 0 else hdr == 0
    {
      hide Blocks, NoGap, Coalesced, Distinct, TagsBut;
      hdr := 0;
      var node := freeList;
      ghost var i := 0;
      ghost var fit := FirstFit(pool.free, pool.size, need / 8);
      while node != 0
        invariant i <= fit && node == LinkTo(pool.free, i)
        decreases |pool.free| - i
      {
        var h := node / 8 - 2;
        ListHeader(mem[..], pool, freeList, i);
        if MagicOf(mem[h]) != MAGIC {
          return;
        }
        if mem[h + 1] >= need {
          hdr := h;
          return;
        }
        node := mem[node / 8 + 1];
        i := i + 1;
      }
    }

    /** kmalloc (heap.c:122-167): first fit. */
    method Kmalloc(size: nat) returns (ptr: nat)
      requires Valid() && size < WRAP_64
      modifies mem, this`freeList, this`pool
      ensures Valid()
      ensures size == 0 || heapBase == 0 ==> ptr == 0
      ensures ptr == 0 ==> pool == old(pool) && mem[..] == old(mem[..]) && freeList == old(freeList)
      ensures size != 0 && heapBase != 0 ==>
                var p := old(pool); var need := TotalNeeded(size) / 8;
                if p.CanFit(need) then ptr == UserAddr(p.Chosen(need)) && pool == p.Take(p.Chosen(need), need)
                else ptr == 0
      ensures heapBase != 0 ==> SameWhereUsed(old(mem[..]), mem[..], old(pool))
      // NULL exactly when no contiguous run of free words is long enough
      ensures size != 0 && heapBase != 0 ==> (ptr == 0 <==> !HasRun(old(pool), TotalNeeded(size) / 8))
      ensures ptr != 0 ==> ptr % 8 == 0 && Grants(old(pool), pool, ptr / 8 - 2, size)
      ensures ptr != 0 ==>
                (ptr % ALIGN == 0 <==> |OddBefore(old(pool).size, ptr / 8 - 2)| % 2 == old(pool).base % 2)
    {
      hide Blocks, NoGap, Coalesced, Distinct, TagsBut, Links, HasRun, Grants, TotalNeeded, Carvable, Carved,
        CarvedHead;
      hide Pool.Valid, Pool.Take, Pool.Chosen, Pool.CanFit, OddBefore;
      ptr := 0;
      if size == 0 || heapBase == 0 {
        return;
      }
      var need := TotalNeeded(size);
      FitIffRun(pool, need / 8);
      var hdr := Search(need);
      if hdr == 0 {
        return;
      }
      ghost var m, h, s := mem[..], freeList, hdr;
      CarveLemma(m, pool, h, s, need / 8);
      TakeGrants(pool, s, size);
      AlignedIff(pool, s);
      TakeBlock(hdr, need, pool.size[hdr]);
      pool := pool.Take(hdr, need / 8);
      ptr := UserAddr(hdr);
    }

    /** hdr->size += the size of the block behind it, with the footer (heap.c:186-187,
        195-196). */
    method Grow(hdr: nat, extra: nat)
      requires hdr + 1 < mem.Length && mem[hdr + 1] % 8 == 0 && MIN_BLOCK <= mem[hdr + 1] && extra % 8 == 0
      requires mem[hdr + 1] + extra < WRAP_64 && hdr + mem[hdr + 1] / 8 + extra / 8 <= mem.Length
      modifies mem
      ensures mem[..] == Joined(old(mem[..]), hdr, old(mem[hdr + 1]) / 8, extra / 8)
    {
      mem[hdr + 1] := AddU64(mem[hdr + 1], extra);
      mem[hdr + mem[hdr + 1] / 8 - 1] := mem[hdr + 1];
    }

    /** heap.c:178-180. */
    method MarkFree(hdr: nat)
      requires hdr + 1 < mem.Length && mem[hdr + 1] % 8 == 0 && MIN_BLOCK <= mem[hdr + 1]
      requires hdr + mem[hdr + 1] / 8 <= mem.Length
      modifies mem
      ensures mem[..] == MarkedFree(old(mem[..]), hdr, old(mem[hdr + 1]) / 8)
    {
      mem[hdr] := WithFlags(mem[hdr], 0);
      mem[hdr + mem[hdr + 1] / 8 - 1] := mem[hdr + 1];
    }

    /** Merge with the next block if it is free (heap.c:183-188). */
    method CoalesceNext(hdr: nat, ghost p: Pool)
      requires p.Valid() && hdr in p.used && heapEnd == 8 * p.end && heapEnd - 8 * p.base < WRAP_64
      requires p.end <= mem.Length
      requires Tags(mem[..], p.(used := p.used - {hdr})) && Links(mem[..], p.free, freeList)
      modifies mem, this`freeList
      ensures Tags(mem[..], p.GrowRight(hdr)) && Links(mem[..], p.GrowRight(hdr).free, freeList)
      ensures SameButFreed(old(mem[..]), mem[..], p, hdr)
    {
      hide Blocks, NoGap, Coalesced, Distinct, TagsBut, Links, SameButFreed;
      NextHeader(mem[..], p, hdr);
      var next := hdr + mem[hdr + 1] / 8;
      if 8 * next < heapEnd && MagicOf(mem[next]) == MAGIC && FlagsOf(mem[next]) % 2 == 0 {
        AbsorbNextImage(mem[..], p, freeList, hdr);
        FreeListRemove(next);
        Grow(hdr, mem[next + 1]);
      } else {
        SameButFreedRefl(mem[..], p, hdr);
      }
    }
  
    /** Merge with the previous block q if it is free (heap.c:190-199). */
    method CoalescePrev(hdr: nat, ghost p: Pool, ghost q: nat) returns (h: nat)
      requires p.Valid() && hdr in p.used && p.Before(q, hdr) && heapBase == 8 * p.base
          && 8 * (p.end - p.base) < WRAP_64
      requires p.end <= mem.Length && Grown(mem[..], p, freeList, hdr)
      modifies mem, this`freeList
      ensures hdr in p.GrowRight(hdr).size && q in p.GrowRight(hdr).size
      ensures var grown := p.GrowRight(hdr);
        && (q == hdr || End(grown.size, q) == hdr)
        && h == (if grown.JoinsLeft(hdr, q) then q else hdr)
        && Tags(mem[..], grown.AbsorbLeft(hdr, q)) && Links(mem[..], grown.AbsorbLeft(hdr, q).free, freeList)
      ensures SameButFreed(old(mem[..]), mem[..], p, hdr)
    {
      h := hdr;
      hide Pool.Valid, Pool.GrowRight, Pool.AbsorbLeft, TagsBut, Links, SameButFreed;
      PrevHeader(mem[..], p, freeList, hdr, q);
      if 8 * hdr > heapBase {
        var prev := hdr - mem[hdr - 1] / 8;
        if MagicOf(mem[prev]) == MAGIC && FlagsOf(mem[prev]) % 2 == 0 {
          AbsorbPrevImage(mem[..], p, freeList, hdr, q);
          FreeListRemove(prev);
          Grow(prev, mem[hdr + 1]);
          h := prev;
          return;
        }
      }
      SameButFreedRefl(mem[..], p, hdr);
    }

    /** kfree once the block is known to be in use (heap.c:178-201). */
    method Release(hdr: nat)
      requires Valid() && heapBase != 0 && hdr in pool.used && hdr in pool.size
      modifies mem, this`freeList, this`pool
      ensures Valid()
      ensures pool == old(pool).Give(hdr, old(pool).PrevOf(hdr))
      ensures SameButFreed(old(mem[..]), mem[..], old(pool), hdr)
    {
      hide Coalesced, NoGap, Blocks, TagsBut, Links, SameButFreed, Pool.GrowRight, Pool.AbsorbLeft;
      ghost var p, m0 := pool, mem[..];
      OwnHeader(m0, p, freeList, hdr);
      MarkFree(hdr);
      ghost var m1 := mem[..];
      MarkedFreeImage(m0, m1, p, freeList, hdr);
      CoalesceNext(hdr, p);
      ghost var m2 := mem[..];
      var h := CoalescePrev(hdr, p, p.PrevOf(hdr));
      ghost var m3 := mem[..];
      EnlistFreed(m3, p, freeList, hdr, p.PrevOf(hdr));
      FreeListInsert(h);
      pool := p.Give(hdr, p.PrevOf(hdr));
      GiveValid(p, hdr, p.PrevOf(hdr));
      SameButFreedTrans(m0, m1, m2, p, hdr);
      SameButFreedTrans(m0, m2, m3, p, hdr);
      SameButFreedTrans(m0, m3, mem[..], p, hdr);
    }

    /** The holder of a block writes word k of its user area. */
    method UserWrite(ptr: nat, k: nat, x: nat)
      requires Valid() && heapBase != 0 && ptr % 8 == 0 && ptr >= HEADER
      requires ptr / 8 - 2 in pool.used && ptr / 8 - 2 in pool.size && k + 3 < pool.size[ptr / 8 - 2]
      modifies mem
      ensures Valid() && ptr / 8 + k < mem.Length && mem[..] == old(mem[..])[ptr / 8 + k := x]
    {
      UserWriteIff(mem[..], pool, freeList, ptr / 8 - 2, ptr / 8 + k, x);
      hide Image, Pool.Valid;
      ghost var m := mem[..];
      mem[ptr / 8 + k] := x;
      assert mem[..] == m[ptr / 8 + k := x];
    }

    /** kfree (heap.c:172-202). NULL, a block that is already free, and a pointer behind a
        word that is no used header are left alone. */
    method Kfree(ptr: nat)
      requires Valid()
      requires ptr != 0 ==>
                 && ptr % 8 == 0 && ptr >= HEADER && ptr / 8 - 2 < mem.Length
                 && (LooksUsed(mem[ptr / 8 - 2]) ==> heapBase != 0 && ptr / 8 - 2 in pool.size)
      modifies mem, this`freeList, this`pool
      ensures Valid()
      ensures var s := ptr / 8 - 2;
        if ptr != 0 && heapBase != 0 && s in old(pool).used then
          && pool == old(pool).Give(s, old(pool).PrevOf(s))
          && SameButFreed(old(mem[..]), mem[..], old(pool), s)
        else
          pool == old(pool) && mem[..] == old(mem[..]) && freeList == old(freeList)
    {
      if ptr == 0 {
        return;
      }
      var hdr := ptr / 8 - 2;
      ghost var p := pool;
      hide Coalesced, NoGap, Blocks, TagsBut, Links, SameButFreed;
      if heapBase != 0 && hdr in p.size {
        OwnHeader(mem[..], p, freeList, hdr);
      }
      if !LooksUsed(mem[hdr]) {
        return;
      }
      Release(hdr);
    }
  }
}

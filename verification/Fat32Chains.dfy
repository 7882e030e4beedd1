/** Cluster chains and what they hold, as the builder keeps them
    (scripts/build_disk.py:38-80, 115-129). */
module Fat32Chains {
  import opened Basics
  import opened Bytes

  const SECTOR := 512
  const EOC := 0x0FFF_FFFF
  const MEDIA := 0x0FFF_FFF8

  /** fat, next free cluster and cluster data are the builder's; chains lists the clusters
      of each chain under its first cluster, home tells for each allocated cluster its
      chain and its place there, and content is what the chain has been given to hold. */
  datatype Disk = Disk(fat: seq<nat>, next: nat, data: map<nat, seq<byte>>,
                       chains: map<nat, seq<nat>>, home: map<nat, (nat, nat)>, content: map<nat, seq<byte>>)

  /** The bytes of a cluster; those never touched are zero. */
  function Cluster(data: map<nat, seq<byte>>, c: nat): seq<byte> {
    if c in data then data[c] else Zeros(SECTOR)
  }

  function At(bytes: seq<byte>, k: nat): byte {
    if k < |bytes| then bytes[k] else 0
  }

  /** Block j of bytes, padded with zeros. */
  function Block(bytes: seq<byte>, j: nat): (b: seq<byte>)
    ensures |b| == SECTOR && forall i | 0 <= i < SECTOR :: b[i] == At(bytes, SECTOR * j + i)
  {
    seq<byte>(SECTOR, i requires 0 <= i < SECTOR => At(bytes, SECTOR * j + i))
  }

  /** Place i of chain h: the cluster is the chain's alone, and its FAT entry leads on, to
      a higher cluster, or ends the chain. */
  ghost predicate LinkOk(d: Disk, h: nat, i: nat)
    requires h in d.chains && i < |d.chains[h]|
  {
    var ch := d.chains[h];
    var c := ch[i];
    && 2 <= c < d.next && c < |d.fat| && c in d.home && d.home[c] == (h, i)
    && (if i + 1 < |ch| then d.fat[c] == ch[i + 1] && c < ch[i + 1] else d.fat[c] == EOC)
  }

  ghost predicate ChainOk(d: Disk, h: nat)
    requires h in d.chains
  {
    && |d.chains[h]| > 0 && d.chains[h][0] == h
    && forall i: nat {:trigger LinkOk(d, h, i)} | i < |d.chains[h]| :: LinkOk(d, h, i)
  }

  ghost predicate AtHome(d: Disk, c: nat)
    requires c in d.home
  {
    var (h, i) := d.home[c];
    h in d.chains && i < |d.chains[h]| && d.chains[h][i] == c
  }

  /** The chains cover clusters 2 to next - 1 exactly and are disjoint, and every later FAT
      entry is 0. */
  ghost predicate Chained(d: Disk) {
    && 3 <= d.next <= |d.fat| <= MEDIA
    && d.fat[0] == MEDIA && d.fat[1] == EOC
    && (forall c: nat {:trigger c in d.home} :: c in d.home <==> 2 <= c < d.next)
    && (forall c {:trigger AtHome(d, c)} | c in d.home :: AtHome(d, c))
    && (forall h {:trigger ChainOk(d, h)} | h in d.chains :: ChainOk(d, h))
    && (forall c | d.next <= c < |d.fat| :: d.fat[c] == 0)
  }

  /** Chain ch holds bytes, then zeros to the end of its last cluster. */
  ghost predicate Holds(data: map<nat, seq<byte>>, ch: seq<nat>, bytes: seq<byte>) {
    && |bytes| <= SECTOR * |ch|
    && forall j: nat {:trigger Block(bytes, j)} | j < |ch| :: Cluster(data, ch[j]) == Block(bytes, j)
  }

  ghost predicate Filled(d: Disk) {
    && d.content.Keys == d.chains.Keys
    && (forall c | c in d.data :: 2 <= c < d.next && |d.data[c]| == SECTOR)
    && (forall h {:trigger Holds(d.data, d.chains[h], d.content[h])} | h in d.chains ::
        Holds(d.data, d.chains[h], d.content[h]))
  }

  ghost predicate Sound(d: Disk) {
    Chained(d) && Filled(d)
  }

  // ---------------------------------------------------------------- chains

  lemma ChainAt(d: Disk, h: nat, i: nat)
    requires Chained(d) && h in d.chains && i < |d.chains[h]|
    ensures LinkOk(d, h, i)
  {
    assert ChainOk(d, h);
  }

  /** The last FAT entry of a chain is the end mark already. */
  lemma ChainEnd(d: Disk, h: nat)
    requires Sound(d) && h in d.chains && |d.chains[h]| > 0
    ensures var last := d.chains[h][|d.chains[h]| - 1]; last < |d.fat| && d.fat[last] == EOC
  {
    ChainAt(d, h, |d.chains[h]| - 1);
  }

  /** Chains are strictly increasing. */
  lemma {:induction false} ChainIncreasing(d: Disk, h: nat, i: nat, j: nat)
    requires Chained(d) && h in d.chains && i < j < |d.chains[h]|
    ensures d.chains[h][i] < d.chains[h][j]
  {
    ChainAt(d, h, j - 1);
    if i < j - 1 {
      ChainIncreasing(d, h, i, j - 1);
    }
  }

  /** No cluster is in two chains, or twice in one. */
  lemma ChainsDisjoint(d: Disk, h: nat, i: nat, g: nat, j: nat)
    requires Chained(d) && h in d.chains && i < |d.chains[h]| && g in d.chains && j < |d.chains[g]|
    requires d.chains[h][i] == d.chains[g][j]
    ensures h == g && i == j
  {
    ChainAt(d, h, i);
    ChainAt(d, g, j);
  }

  /** Every allocated cluster is in a chain, and no other; its FAT entry leads to the next
      cluster of the chain, or is the end mark; and no other entry is used. */
  lemma ChainsCover(d: Disk, c: nat)
    requires Chained(d)
    ensures 2 <= c < d.next <==> exists h: nat, i: nat :: h in d.chains && i < |d.chains[h]| && d.chains[h][i] == c
    ensures forall h: nat, i: nat :: h in d.chains && i < |d.chains[h]| && d.chains[h][i] == c ==>
              c < |d.fat| && d.fat[c] == if i + 1 < |d.chains[h]| then d.chains[h][i + 1] else EOC
    ensures d.next <= c < |d.fat| ==> d.fat[c] == 0
  {
    forall h: nat, i: nat | h in d.chains && i < |d.chains[h]| && d.chains[h][i] == c
      ensures c < |d.fat| && d.fat[c] == if i + 1 < |d.chains[h]| then d.chains[h][i + 1] else EOC
    {
      ChainAt(d, h, i);
    }
    if 2 <= c < d.next {
      assert c in d.home && AtHome(d, c);
      var (h, i) := d.home[c];
      assert h in d.chains && i < |d.chains[h]| && d.chains[h][i] == c;
    }
    if h: nat, i: nat :| h in d.chains && i < |d.chains[h]| && d.chains[h][i] == c {
      ChainAt(d, h, i);
    }
  }

  /** A chain has no more clusters than the disk has allocated. */
  lemma ChainShort(d: Disk, h: nat)
    requires Chained(d) && h in d.chains
    ensures |d.chains[h]| <= d.next - 2
  {
    assert ChainOk(d, h);
    ChainRises(d, h, |d.chains[h]| - 1);
    ChainAt(d, h, |d.chains[h]| - 1);
  }

  lemma {:induction false} ChainRises(d: Disk, h: nat, i: nat)
    requires Chained(d) && h in d.chains && i < |d.chains[h]|
    ensures d.chains[h][i] >= 2 + i
  {
    ChainAt(d, h, i);
    if i > 0 {
      ChainRises(d, h, i - 1);
      ChainAt(d, h, i - 1);
    }
  }

  // ---------------------------------------------------------------- growth

  /** A new chain of one cluster. */
  function Opened(d: Disk): Disk
    requires d.next < |d.fat|
  {
    var c := d.next;
    Disk(d.fat[c := EOC], c + 1, d.data, d.chains[c := [c]], d.home[c := (c, 0)], d.content[c := []])
  }

  /** Chain h with one cluster more. */
  function Extended(d: Disk, h: nat): Disk
    requires d.next < |d.fat| && h in d.chains && |d.chains[h]| > 0 && d.chains[h][|d.chains[h]| - 1] < |d.fat|
  {
    var c := d.next;
    var ch := d.chains[h];
    Disk(d.fat[c := EOC][ch[|ch| - 1] := c], c + 1, d.data, d.chains[h := ch + [c]], d.home[c := (h, |ch|)], d.content)
  }

  lemma EmptyBlock(j: nat)
    ensures Block([], j) == Zeros(SECTOR)
  {
  }

  lemma PastBlock(bytes: seq<byte>, j: nat)
    requires |bytes| <= SECTOR * j
    ensures Block(bytes, j) == Zeros(SECTOR)
  {
  }

  lemma NextIsNew(d: Disk)
    requires Chained(d)
    ensures d.next !in d.chains
  {
    if d.next in d.chains {
      assert ChainOk(d, d.next);
      ChainAt(d, d.next, 0);
    }
  }

  lemma OpenedSound(d: Disk)
    requires Sound(d) && d.next < |d.fat|
    ensures Sound(Opened(d)) && d.next !in d.chains
  {
    NextIsNew(d);
    var c := d.next;
    var d' := Opened(d);
    forall h | h in d'.chains ensures ChainOk(d', h) {
      if h != c {
        assert ChainOk(d, h);
        forall i: nat | i < |d'.chains[h]| ensures LinkOk(d', h, i) {
          assert LinkOk(d, h, i);
        }
      } else {
        assert LinkOk(d', c, 0);
      }
    }
    forall b | b in d'.home ensures AtHome(d', b) {
      if b != c {
        assert AtHome(d, b);
      }
    }
    forall h | h in d'.chains ensures Holds(d'.data, d'.chains[h], d'.content[h]) {
      if h != c {
        assert Holds(d.data, d.chains[h], d.content[h]);
      } else {
        EmptyBlock(0);
      }
    }
  }

  lemma ExtendedSound(d: Disk, h: nat)
    requires Sound(d) && d.next < |d.fat| && h in d.chains
    ensures |d.chains[h]| > 0 && d.chains[h][|d.chains[h]| - 1] < |d.fat|
    ensures Sound(Extended(d, h))
  {
    assert ChainOk(d, h);
    ChainAt(d, h, |d.chains[h]| - 1);
    ExtendedChained(d, h);
    ExtendedFilled(d, h);
  }

  lemma ExtendedChained(d: Disk, h: nat)
    requires Chained(d) && d.next < |d.fat| && h in d.chains
    requires |d.chains[h]| > 0 && d.chains[h][|d.chains[h]| - 1] < |d.fat|
    ensures Chained(Extended(d, h))
  {
    var c := d.next;
    var d' := Extended(d, h);
    var n := |d.chains[h]|;
    ChainAt(d, h, n - 1);
    forall g | g in d'.chains ensures ChainOk(d', g) {
      assert ChainOk(d, g);
      forall i: nat | i < |d'.chains[g]| ensures LinkOk(d', g, i) {
        if g == h && i == n {
        } else {
          assert LinkOk(d, g, i);
          if d.chains[g][i] == d.chains[h][n - 1] {
            ChainsDisjoint(d, g, i, h, n - 1);
          }
        }
      }
    }
    forall b | b in d'.home ensures AtHome(d', b) {
      if b != c {
        assert AtHome(d, b);
      }
    }
  }

  lemma ExtendedFilled(d: Disk, h: nat)
    requires Sound(d) && d.next < |d.fat| && h in d.chains
    requires |d.chains[h]| > 0 && d.chains[h][|d.chains[h]| - 1] < |d.fat|
    ensures Filled(Extended(d, h))
  {
    var d' := Extended(d, h);
    assert Holds(d.data, d.chains[h], d.content[h]);
    PastBlock(d.content[h], |d.chains[h]|);
    forall g | g in d'.chains ensures Holds(d'.data, d'.chains[g], d'.content[g]) {
      assert Holds(d.data, d.chains[g], d.content[g]);
    }
  }

  // ---------------------------------------------------------------- filling

  /** The cluster with x written at position at. */
  function Patched(b: seq<byte>, at: nat, x: seq<byte>): (p: seq<byte>)
    requires at + |x| <= |b|
    ensures |p| == |b|
  {
    b[..at] + x + b[at + |x|..]
  }

  /** x appended to the content of chain h, inside one cluster. */
  function Appended(d: Disk, h: nat, x: seq<byte>): Disk
    requires h in d.chains && h in d.content
    requires var n := |d.content[h]|; n / SECTOR < |d.chains[h]| && n % SECTOR + |x| <= SECTOR
    requires |Cluster(d.data, d.chains[h][|d.content[h]| / SECTOR])| == SECTOR
  {
    var n := |d.content[h]|;
    var c := d.chains[h][n / SECTOR];
    d.(data := d.data[c := Patched(Cluster(d.data, c), n % SECTOR, x)], content := d.content[h := d.content[h] + x])
  }

  lemma BlockAppend(bytes: seq<byte>, x: seq<byte>, j: nat)
    requires |bytes| % SECTOR + |x| <= SECTOR
    ensures Block(bytes + x, j) ==
            if j == |bytes| / SECTOR then Patched(Block(bytes, j), |bytes| % SECTOR, x) else Block(bytes, j)
  {
    var n := |bytes|;
    var q, r := n / SECTOR, n % SECTOR;
    assert n == SECTOR * q + r;
    forall i | 0 <= i < SECTOR
      ensures Block(bytes + x, j)[i] == (if j == q then Patched(Block(bytes, j), r, x) else Block(bytes, j))[i]
    {
      if j == q {
        assert SECTOR * j + i == n - r + i;
      } else if j < q {
        assert SECTOR * j + SECTOR <= SECTOR * q;
      } else {
        assert SECTOR * j >= SECTOR * q + SECTOR;
      }
    }
  }

  lemma AppendedSound(d: Disk, h: nat, x: seq<byte>)
    requires Sound(d) && h in d.chains
    requires var n := |d.content[h]|; n / SECTOR < |d.chains[h]| && n % SECTOR + |x| <= SECTOR
    ensures |Cluster(d.data, d.chains[h][|d.content[h]| / SECTOR])| == SECTOR
    ensures Sound(Appended(d, h, x))
  {
    var n := |d.content[h]|;
    var j := n / SECTOR;
    assert Holds(d.data, d.chains[h], d.content[h]);
    ChainAt(d, h, j);
    var d' := Appended(d, h, x);
    AppendedChained(d, d');
    forall g | g in d'.chains ensures Holds(d'.data, d'.chains[g], d'.content[g]) {
      AppendedHolds(d, h, x, g);
    }
  }

  lemma AppendedChained(d: Disk, d': Disk)
    requires Chained(d) && d' == d.(data := d'.data, content := d'.content)
    ensures Chained(d')
  {
    forall h | h in d'.chains ensures ChainOk(d', h) {
      assert ChainOk(d, h);
      forall i: nat | i < |d'.chains[h]| ensures LinkOk(d', h, i) {
        assert LinkOk(d, h, i);
      }
    }
    forall b | b in d'.home ensures AtHome(d', b) {
      assert AtHome(d, b);
    }
  }

  lemma AppendedHolds(d: Disk, h: nat, x: seq<byte>, g: nat)
    requires Sound(d) && h in d.chains && g in d.chains
    requires var n := |d.content[h]|; n / SECTOR < |d.chains[h]| && n % SECTOR + |x| <= SECTOR
    requires |Cluster(d.data, d.chains[h][|d.content[h]| / SECTOR])| == SECTOR
    ensures var d' := Appended(d, h, x); Holds(d'.data, d'.chains[g], d'.content[g])
  {
    var d' := Appended(d, h, x);
    var j := |d.content[h]| / SECTOR;
    assert Holds(d.data, d.chains[g], d.content[g]);
    assert Holds(d.data, d.chains[h], d.content[h]);
    forall k: nat | k < |d.chains[g]| ensures Cluster(d'.data, d'.chains[g][k]) == Block(d'.content[g], k) {
      assert Cluster(d.data, d.chains[g][k]) == Block(d.content[g], k);
      if d.chains[g][k] == d.chains[h][j] {
        ChainsDisjoint(d, g, k, h, j);
      }
      BlockAppend(d.content[h], x, k);
    }
  }

  /** Reading a cluster puts it among the touched ones and changes nothing else. */
  lemma TouchedSound(d: Disk, c: nat)
    requires Sound(d) && 2 <= c < d.next
    ensures |Cluster(d.data, c)| == SECTOR && Sound(d.(data := d.data[c := Cluster(d.data, c)]))
  {
    var d' := d.(data := d.data[c := Cluster(d.data, c)]);
    AppendedChained(d, d');
    forall h | h in d'.chains ensures Holds(d'.data, d'.chains[h], d'.content[h]) {
      assert Holds(d.data, d.chains[h], d.content[h]);
    }
  }

  /** What place j of chain h holds, and where its FAT entry leads. */
  lemma PlaceReads(d: Disk, h: nat, j: nat)
    requires Sound(d) && h in d.chains && j < |d.chains[h]|
    ensures h in d.content
    ensures var c := d.chains[h][j];
      && 2 <= c < d.next && c < |d.fat| && Cluster(d.data, c) == Block(d.content[h], j)
      && (d.fat[c] == EOC <==> j == |d.chains[h]| - 1)
      && (j + 1 < |d.chains[h]| ==> d.fat[c] == d.chains[h][j + 1])
  {
    ChainAt(d, h, j);
    assert Holds(d.data, d.chains[h], d.content[h]);
    if j + 1 < |d.chains[h]| {
      ChainAt(d, h, j + 1);
    }
  }

  lemma ContentFits(d: Disk, h: nat)
    requires Sound(d) && h in d.chains
    ensures h in d.content && |d.content[h]| <= SECTOR * |d.chains[h]| && |d.chains[h]| > 0 && d.chains[h][0] == h
  {
    assert Holds(d.data, d.chains[h], d.content[h]) && ChainOk(d, h);
  }
}

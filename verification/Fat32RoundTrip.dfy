/** Reading back what was built: the reader run on the image finds the tree that the calls
    to add_directory and add_file describe. */
module Fat32RoundTrip {
  import opened Basics
  import opened Bytes
  import opened Fat32Reader
  import opened DirEntries
  import opened Fat32Chains
  import opened Fat32Dirs
  import opened Fat32Layout

  // ---------------------------------------------------------------- the tree described

  /** The tree under directory p, as the lists of added items describe it: entries in the
      order they were added. Directories listed in p were made after it, so the tree is
      finite; limit bounds the numbers of directories. */
  function TreeOf(dirs: map<nat, seq<Item>>, p: nat, limit: nat): seq<Node>
    decreases limit - p, 1, 0
  {
    if p in dirs && p < limit then ItemNodes(dirs, dirs[p], p, limit) else []
  }

  function ItemNodes(dirs: map<nat, seq<Item>>, items: seq<Item>, p: nat, limit: nat): seq<Node>
    requires p < limit
    decreases limit - p, 0, |items|
  {
    if items == [] then [] else [ItemNode(dirs, items[0], p, limit)] + ItemNodes(dirs, items[1..], p, limit)
  }

  function ItemNode(dirs: map<nat, seq<Item>>, it: Item, p: nat, limit: nat): Node
    requires p < limit
    decreases limit - p, 0, 0
  {
    match it
    case FileItem(name, data, _) => File(NameBytes(name), data)
    case DirItem(name, c) => Dir(NameBytes(name), if p < c then TreeOf(dirs, c, limit) else [])
  }

  function NameBytes(name: string): seq<byte> {
    if Encodable(name) then ShortName(name) else []
  }

  // ---------------------------------------------------------------- finding things

  /** The parameters the reader gets from the boot sector. */
  function Params(total: nat): Bpb {
    Bpb(SECTOR, 1, RESERVED, NUM_FATS, total, SectorsPerFat(total), ROOT)
  }

  lemma ParsedParams(img: seq<byte>, d: Disk, total: nat)
    requires ImageOf(img, d, total)
    ensures |img| >= 512 && ParseBpb(img) == Params(total)
    ensures CountOfClusters(Params(total)) == TotalClusters(total) && FirstDataSector(Params(total)) == DataStart(total)
  {
  }

  lemma FatByteAt(img: seq<byte>, d: Disk, total: nat, j: nat)
    requires ImageOf(img, d, total) && j < SectorsPerFat(total) * SECTOR
    ensures RESERVED * SECTOR + j < |img| && img[RESERVED * SECTOR + j] == FatByte(d.fat, |d.fat|, j)
  {
    assert img[RESERVED * SECTOR..(RESERVED + SectorsPerFat(total)) * SECTOR][j] == img[RESERVED * SECTOR + j];
  }

  lemma FatRead(img: seq<byte>, d: Disk, total: nat, c: nat)
    requires ImageOf(img, d, total) && c < |d.fat|
    ensures FatEntry(img, Params(total), c) == d.fat[c] % 0x1000_0000
  {
    hide ImageOf, SectorsPerFat, U32, LeByte, FatByte;
    var at := RESERVED * SECTOR + c * 4;
    var x := d.fat[c] % 0x1000_0000;
    EntryByte(img, d, total, c, 0);
    EntryByte(img, d, total, c, 1);
    EntryByte(img, d, total, c, 2);
    EntryByte(img, d, total, c, 3);
    FourBytes(x, img, at);
  }

  lemma FourBytes(x: nat, b: seq<byte>, at: nat)
    requires x < 0x1_0000_0000 && at + 4 <= |b|
    requires b[at] == LeByte(x, 0) && b[at + 1] == LeByte(x, 1) && b[at + 2] == LeByte(x, 2)
        && b[at + 3] == LeByte(x, 3)
    ensures U32(b, at) == x
  {
    assert b[at..at + 4] == Le32(x);
    Le32At(x, b, at);
  }

  lemma EntryByte(img: seq<byte>, d: Disk, total: nat, c: nat, k: nat)
    requires ImageOf(img, d, total) && c < |d.fat| && k < 4
    ensures RESERVED * SECTOR + c * 4 + k < |img|
    ensures img[RESERVED * SECTOR + c * 4 + k] == LeByte(d.fat[c] % 0x1000_0000, k)
  {
    FatHasRoom(total);
    FatByteAt(img, d, total, c * 4 + k);
    assert (c * 4 + k) / 4 == c && (c * 4 + k) % 4 == k;
  }

  lemma ClusterRead(img: seq<byte>, d: Disk, total: nat, c: nat)
    requires ImageOf(img, d, total) && 2 <= c < d.next
    ensures ReadCluster(img, Params(total), c) == Cluster(d.data, c)
  {
    assert ClusterAt(total, c) == ClusterOffset(Params(total), c);
  }

  /** What the image says about place i of a chain. */
  lemma PlaceRead(img: seq<byte>, d: Disk, total: nat, h: nat, i: nat)
    requires ImageOf(img, d, total) && Sound(d) && h in d.chains && i < |d.chains[h]|
    ensures h in d.content
    ensures var ch := d.chains[h];
      && ch[i] >= 2 && ReadCluster(img, Params(total), ch[i]) == Block(d.content[h], i)
      && (if i + 1 < |ch| then FatEntry(img, Params(total), ch[i]) == ch[i + 1] < EOC_MIN
          else FatEntry(img, Params(total), ch[i]) >= EOC_MIN)
  {
    hide ImageOf, Sound, FatEntry, ReadCluster, Params, Block;
    PlaceReads(d, h, i);
    FatRead(img, d, total, d.chains[h][i]);
    ClusterRead(img, d, total, d.chains[h][i]);
    NextPlace(d, h, i);
  }

  lemma NextPlace(d: Disk, h: nat, i: nat)
    requires Sound(d) && h in d.chains && i < |d.chains[h]|
    ensures i + 1 < |d.chains[h]| ==> d.chains[h][i + 1] < EOC_MIN
  {
    if i + 1 < |d.chains[h]| {
      PlaceReads(d, h, i + 1);
    }
  }

  /** Following the FAT of the image from place i of a chain gives the rest of the chain. */
  lemma {:induction false} ChainRead(img: seq<byte>, d: Disk, total: nat, h: nat, i: nat, fuel: nat)
    requires ImageOf(img, d, total) && Sound(d) && h in d.chains && i < |d.chains[h]| && fuel >= |d.chains[h]| - i
    ensures Chain(img, Params(total), d.chains[h][i], fuel) == d.chains[h][i..]
    decreases |d.chains[h]| - i
  {
    hide ImageOf, Sound, FatEntry, Params;
    var ch := d.chains[h];
    PlaceRead(img, d, total, h, i);
    if i + 1 < |ch| {
      ChainRead(img, d, total, h, i + 1, fuel - 1);
      assert ch[i..] == [ch[i]] + ch[i + 1..];
    } else {
      assert ch[i..] == [ch[i]];
    }
  }

  /** The bytes read from a chain: its content, then zeros. */
  lemma {:induction false} ConcatRead(img: seq<byte>, d: Disk, total: nat, h: nat, i: nat, k: nat)
    requires ImageOf(img, d, total) && Sound(d) && h in d.chains && i <= |d.chains[h]| && h in d.content
    ensures var bytes := Concat(img, Params(total), d.chains[h][i..]);
      && |bytes| == SECTOR * (|d.chains[h]| - i)
      && (k < |bytes| ==> bytes[k] == At(d.content[h], SECTOR * i + k))
    decreases |d.chains[h]| - i
  {
    hide ImageOf, Sound, ReadCluster, Params;
    var ch := d.chains[h];
    if i < |ch| {
      PlaceRead(img, d, total, h, i);
      assert ch[i..][1..] == ch[i + 1..];
      ConcatRead(img, d, total, h, i + 1, if k >= SECTOR then k - SECTOR else 0);
    }
  }

  lemma FuelEnough(img: seq<byte>, d: Disk, total: nat, h: nat)
    requires ImageOf(img, d, total) && Sound(d) && h in d.chains
    ensures |d.chains[h]| <= CountOfClusters(Params(total))
  {
    ParsedParams(img, d, total);
    ChainShort(d, h);
  }

  lemma ReadChainIs(img: seq<byte>, d: Disk, total: nat, h: nat)
    requires ImageOf(img, d, total) && Sound(d) && h in d.chains
    ensures ReadChain(img, Params(total), h) == Concat(img, Params(total), d.chains[h][0..])
  {
    ContentFits(d, h);
    FuelEnough(img, d, total, h);
    ChainRead(img, d, total, h, 0, CountOfClusters(Params(total)));
    hide Sound, Chain, Concat, ImageOf, Params, CountOfClusters;
  }

  lemma ChainBytes(img: seq<byte>, d: Disk, total: nat, h: nat)
    requires ImageOf(img, d, total) && Sound(d) && h in d.chains
    ensures h in d.content
    ensures var bytes := ReadChain(img, Params(total), h);
      && |bytes| == SECTOR * |d.chains[h]| && |d.content[h]| <= |bytes| && |bytes| % 32 == 0
      && forall k: nat | k < |bytes| :: bytes[k] == At(d.content[h], k)
  {
    hide Sound, ReadChain, ImageOf, Params, At;
    ContentFits(d, h);
    ByteRead(img, d, total, h, 0);
    Times512(|d.chains[h]|);
    var bytes := ReadChain(img, Params(total), h);
    forall k: nat | k < |bytes| ensures bytes[k] == At(d.content[h], k) {
      ByteRead(img, d, total, h, k);
    }
  }

  lemma ByteRead(img: seq<byte>, d: Disk, total: nat, h: nat, k: nat)
    requires ImageOf(img, d, total) && Sound(d) && h in d.chains
    ensures h in d.content && |ReadChain(img, Params(total), h)| == SECTOR * |d.chains[h]|
    ensures k < SECTOR * |d.chains[h]| ==> ReadChain(img, Params(total), h)[k] == At(d.content[h], k)
  {
    hide Sound, ReadChain, Concat, ImageOf, Params, At;
    ContentFits(d, h);
    ReadChainIs(img, d, total, h);
    ConcatRead(img, d, total, h, 0, k);
  }

  lemma Times512(n: nat)
    ensures SECTOR * n % 32 == 0
  {
    assert SECTOR * n == 32 * (16 * n);
  }

  // ---------------------------------------------------------------- directories and files

  /** The reader's scan of a directory finds its entries, from the k-th one on. */
  lemma {:induction false} EntriesRead(bytes: seq<byte>, es: seq<seq<byte>>, k: nat)
    requires AllInUse(es) && k <= |es| && |Flat(es)| <= |bytes| && |bytes| % 32 == 0
    requires forall i: nat | i < |bytes| :: bytes[i] == At(Flat(es), i)
    ensures Entries(bytes, 32 * k) == es[k..]
    decreases |es| - k
  {
    FlatLength(es);
    if k < |es| {
      FlatStart(es, k);
      SlotRead(bytes, es, k);
      EntriesRead(bytes, es, k + 1);
      assert es[k..] == [es[k]] + es[k + 1..];
    } else {
      assert 32 * k < |bytes| ==> bytes[32 * k] == 0;
    }
  }

  lemma SlotRead(bytes: seq<byte>, es: seq<seq<byte>>, k: nat)
    requires AllInUse(es) && k < |es| && |Flat(es)| <= |bytes|
    requires forall i: nat | i < |bytes| :: bytes[i] == At(Flat(es), i)
    ensures 32 * k + 32 <= |bytes| && bytes[32 * k..32 * k + 32] == es[k] && InUse(es[k])
  {
    FlatLength(es);
    FlatStart(es, k);
    var slot := bytes[32 * k..32 * k + 32];
    forall i | 0 <= i < 32 ensures slot[i] == es[k][i] {
      FlatAt(es, 32 * k + i);
      assert (32 * k + i) / 32 == k && (32 * k + i) % 32 == i;
    }
  }

  lemma DirectoryHolds(d: Disk, ents: map<nat, seq<seq<byte>>>, dirs: map<nat, seq<Item>>, p: nat)
    requires Sound(d) && Directories(d, ents, dirs) && p in dirs
    ensures p in d.chains && p in d.content && p in ents && d.content[p] == Flat(ents[p]) && AllInUse(ents[p])
    ensures AllFit(dirs[p]) && Lists(p, ents[p], dirs[p]) && ItemsOk(d, dirs.Keys, p, dirs[p])
  {
    assert DirHere(d, ents, dirs, p);
  }

  /** The reader finds in a directory exactly the entries of its items, in order. */
  lemma DirectoryRead(img: seq<byte>, d: Disk, total: nat, ents: map<nat, seq<seq<byte>>>, dirs: map<nat, seq<Item>>,
                      p: nat)
    requires ImageOf(img, d, total) && Sound(d) && Directories(d, ents, dirs) && p in dirs
    ensures AllFit(dirs[p])
    ensures var es := Entries(ReadChain(img, Params(total), p), 0);
      (if p == ROOT then es == ItemEntries(dirs[p]) else |es| >= 2 && es[2..] == ItemEntries(dirs[p]))
  {
    DirectoryHolds(d, ents, dirs, p);
    ChainBytes(img, d, total, p);
    hide ImageOf, Sound, Directories, AllInUse, Flat, ReadChain, AllFit, Entries, Params, At;
    EntriesRead(ReadChain(img, Params(total), p), ents[p], 0);
    assert ents[p][0..] == ents[p];
  }

  /** The bytes the reader gets for a file item are the data that was added. */
  lemma FileRead(img: seq<byte>, d: Disk, total: nat, names: set<nat>, p: nat, it: Item)
    requires ImageOf(img, d, total) && Sound(d) && ItemFits(it) && it.FileItem? && ItemOk(d, names, p, it)
    ensures ReadFile(img, Params(total), ItemEntry(it)) == it.data
  {
    var e := ItemEntry(it);
    EntryReads(it.name, ATTR_FILE, it.cluster, |it.data|);
    if it.data == [] {
      assert Chain(img, Params(total), 0, CountOfClusters(Params(total))) == [];
    } else {
      ChainBytes(img, d, total, it.cluster);
      var bytes := ReadChain(img, Params(total), it.cluster);
      assert bytes[..|it.data|] == it.data;
    }
  }

  /** One item: a file with its data, or a directory with what the reader finds in it. */
  lemma ItemRead(it: Item)
    requires ItemFits(it)
    ensures var e := ItemEntry(it);
      && IsEntry(e) && NameOf(e) == NameBytes(it.name) && (IsDirectory(e) <==> it.DirItem?)
      && FirstClusterOf(e) == it.cluster
  {
    match it
    case FileItem(name, data, c) => EntryReads(name, ATTR_FILE, c, |data|);
    case DirItem(name, c) => EntryReads(name, ATTR_DIR, c, 0);
  }

  lemma FirstItem(d: Disk, names: set<nat>, p: nat, items: seq<Item>)
    requires items != [] && AllFit(items) && ItemsOk(d, names, p, items)
    ensures ItemFits(items[0]) && ItemOk(d, names, p, items[0])
    ensures AllFit(items[1..]) && ItemsOk(d, names, p, items[1..])
    ensures ItemEntries(items) == [ItemEntry(items[0])] + ItemEntries(items[1..])
  {
  }

  lemma {:induction false} DirTreeRead(img: seq<byte>, d: Disk, total: nat, ents: map<nat, seq<seq<byte>>>,
                                       dirs: map<nat, seq<Item>>, p: nat, fuel: nat)
    requires ImageOf(img, d, total) && Sound(d) && Directories(d, ents, dirs) && p in dirs && p < d.next
        && fuel >= d.next - p
    ensures ReadDir(img, Params(total), p, fuel) == TreeOf(dirs, p, d.next)
    decreases fuel, 2, 0
  {
    DirectoryRead(img, d, total, ents, dirs, p);
    DirectoryHolds(d, ents, dirs, p);
    hide ImageOf, Sound, Directories, ItemsOk, AllFit, Lists, Entries, ReadChain, ReadEntries, ItemNodes;
    ItemsTreeRead(img, d, total, ents, dirs, dirs[p], p, fuel);
  }

  lemma {:induction false} ItemsTreeRead(img: seq<byte>, d: Disk, total: nat, ents: map<nat, seq<seq<byte>>>,
                                         dirs: map<nat, seq<Item>>, items: seq<Item>, p: nat, fuel: nat)
    requires ImageOf(img, d, total) && Sound(d) && Directories(d, ents, dirs) && p < d.next && fuel >= d.next - p
    requires AllFit(items) && ItemsOk(d, dirs.Keys, p, items)
    ensures ReadEntries(img, Params(total), ItemEntries(items), fuel) == ItemNodes(dirs, items, p, d.next)
    decreases fuel, 1, |items|
  {
    if items != [] {
      FirstItem(d, dirs.Keys, p, items);
      ItemTreeRead(img, d, total, ents, dirs, items[0], p, fuel);
      ItemsTreeRead(img, d, total, ents, dirs, items[1..], p, fuel);
      hide ImageOf, Sound, Directories, Params, ItemsOk, AllFit, ItemEntries, ReadEntry, ItemNode, ItemEntry, ItemOk;
      FirstRead(img, Params(total), ItemEntry(items[0]), ItemEntries(items[1..]), fuel);
    }
  }

  lemma FirstRead(img: seq<byte>, b: Bpb, e: seq<byte>, rest: seq<seq<byte>>, fuel: nat)
    requires IsEntry(e)
    ensures ReadEntries(img, b, [e] + rest, fuel) == [ReadEntry(img, b, e, fuel)] + ReadEntries(img, b, rest, fuel)
  {
    assert ([e] + rest)[1..] == rest;
  }

  lemma {:induction false} ItemTreeRead(img: seq<byte>, d: Disk, total: nat, ents: map<nat, seq<seq<byte>>>,
                                        dirs: map<nat, seq<Item>>, it: Item, p: nat, fuel: nat)
    requires ImageOf(img, d, total) && Sound(d) && Directories(d, ents, dirs) && p < d.next && fuel >= d.next - p
    requires ItemFits(it) && ItemOk(d, dirs.Keys, p, it)
    ensures ReadEntry(img, Params(total), ItemEntry(it), fuel) == ItemNode(dirs, it, p, d.next)
    decreases fuel, 0, 0
  {
    hide ImageOf, Sound, Directories, ReadDir, Params, ItemFits, ReadEntry, ItemNode, TreeOf, ItemEntry;
    if it.FileItem? {
      FileItemRead(img, d, total, dirs, it, p, fuel);
    } else {
      DirectoryBelow(d, ents, dirs, it.cluster);
      DirTreeRead(img, d, total, ents, dirs, it.cluster, fuel - 1);
      DirItemRead(img, Params(total), dirs, it, p, d.next, fuel);
    }
  }

  lemma FileItemRead(img: seq<byte>, d: Disk, total: nat, dirs: map<nat, seq<Item>>, it: Item, p: nat, fuel: nat)
    requires ImageOf(img, d, total) && Sound(d) && p < d.next
    requires ItemFits(it) && ItemOk(d, dirs.Keys, p, it) && it.FileItem?
    ensures ReadEntry(img, Params(total), ItemEntry(it), fuel) == ItemNode(dirs, it, p, d.next)
  {
    ItemRead(it);
    FileRead(img, d, total, dirs.Keys, p, it);
    hide ImageOf, Sound, ReadFile, NameBytes, ItemEntry, Params, ItemOk, ItemFits, ReadDir;
  }

  lemma DirItemRead(img: seq<byte>, b: Bpb, dirs: map<nat, seq<Item>>, it: Item, p: nat, limit: nat, fuel: nat)
    requires ItemFits(it) && it.DirItem? && p < it.cluster && p < limit && fuel > 0
    requires ReadDir(img, b, it.cluster, fuel - 1) == TreeOf(dirs, it.cluster, limit)
    ensures ReadEntry(img, b, ItemEntry(it), fuel) == ItemNode(dirs, it, p, limit)
  {
    ItemRead(it);
    hide ReadFile, NameBytes, ItemEntry, ItemFits, ReadDir, TreeOf;
  }

  lemma DirectoryBelow(d: Disk, ents: map<nat, seq<seq<byte>>>, dirs: map<nat, seq<Item>>, p: nat)
    requires Sound(d) && Directories(d, ents, dirs) && p in dirs
    ensures p < d.next
  {
    assert DirHere(d, ents, dirs, p);
    assert ChainOk(d, p);
    ChainAt(d, p, 0);
  }

  /** The round trip: an independent reader run on the image recovers exactly the tree that
      was built, names, order and data, empty files and directories of many clusters
      included. */
  lemma RoundTrip(img: seq<byte>, d: Disk, total: nat, ents: map<nat, seq<seq<byte>>>, dirs: map<nat, seq<Item>>,
                  fuel: nat)
    requires ImageOf(img, d, total) && Sound(d) && Directories(d, ents, dirs) && fuel >= d.next
    ensures |img| >= 512 && ReadVolume(img, fuel) == TreeOf(dirs, ROOT, d.next)
  {
    ParsedParams(img, d, total);
    DirectoryBelow(d, ents, dirs, ROOT);
    DirTreeRead(img, d, total, ents, dirs, ROOT, fuel);
  }
}

/** The round trip for the builder itself. */
module Fat32EndToEnd {
  import opened Basics
  import opened Fat32Reader
  import opened Fat32Dirs
  import opened Fat32Layout
  import opened Fat32Builder
  import opened Fat32RoundTrip

  /** Whatever has been added to a builder, a reader of the image that build_disk writes
      finds it again: dirs, which each call of add_directory and add_file extends by its
      arguments, describes the tree read. */
  lemma BuiltDiskReadsBack(b: Builder, img: seq<byte>, fuel: nat)
    requires b.Valid() && ImageOf(img, b.Now(), b.totalSectors) && fuel >= b.nextFree
    ensures |img| >= 512 && ReadVolume(img, fuel) == TreeOf(b.dirs, ROOT, b.nextFree)
  {
    RoundTrip(img, b.Now(), b.totalSectors, b.ents, b.dirs, fuel);
  }
}

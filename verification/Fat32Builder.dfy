/** Directories as the builder keeps them: what each one lists, and where. */
module Fat32Dirs {
  import opened Basics
  import opened Fat32Chains
  import opened DirEntries

  const ROOT := 2
  const ATTR_DIR := 0x10
  const ATTR_FILE := 0x20

  /** An entry added to a directory, with the first cluster of the file or directory. */
  datatype Item = FileItem(name: string, data: seq<byte>, cluster: nat) | DirItem(name: string, cluster: nat)

  ghost predicate ItemFits(it: Item) {
    && Encodable(it.name) && it.cluster < MEDIA
    && (it.FileItem? ==> |it.data| < 0x1_0000_0000)
  }

  /** The 32 bytes of an item. */
  function ItemEntry(it: Item): (e: seq<byte>)
    requires Encodable(it.name)
    ensures |e| == 32
  {
    match it
    case FileItem(name, data, c) => CreateDirEntry(name, ATTR_FILE, c, |data|)
    case DirItem(name, c) => CreateDirEntry(name, ATTR_DIR, c, 0)
  }

  ghost predicate AllFit(items: seq<Item>) {
    forall k | 0 <= k < |items| :: ItemFits(items[k])
  }

  function ItemEntries(items: seq<Item>): (es: seq<seq<byte>>)
    requires forall k | 0 <= k < |items| :: Encodable(items[k].name)
    ensures |es| == |items| && forall k | 0 <= k < |es| :: es[k] == ItemEntry(items[k])
  {
    seq(|items|, k requires 0 <= k < |items| => ItemEntry(items[k]))
  }

  /** An entry a scan for a free slot passes over. */
  predicate InUse(e: seq<byte>) {
    |e| == 32 && e[0] != 0 && e[0] != 0xE5
  }

  /** Entries one after another. */
  function Flat(es: seq<seq<byte>>): seq<byte> {
    if es == [] then [] else Flat(es[..|es| - 1]) + es[|es| - 1]
  }

  ghost predicate AllInUse(es: seq<seq<byte>>) {
    forall k | 0 <= k < |es| :: InUse(es[k])
  }

  lemma {:induction false} FlatAt(es: seq<seq<byte>>, k: nat)
    requires AllInUse(es)
    ensures |Flat(es)| == 32 * |es|
    ensures k < 32 * |es| ==> Flat(es)[k] == es[k / 32][k % 32]
  {
    if es != [] {
      var n := |es| - 1;
      FlatAt(es[..n], if k < 32 * n then k else 0);
      if 32 * n <= k < 32 * |es| {
        assert k / 32 == n && k % 32 == k - 32 * n;
      }
    }
  }

  lemma FlatPush(es: seq<seq<byte>>, e: seq<byte>)
    ensures Flat(es + [e]) == Flat(es) + e
  {
    assert (es + [e])[..|es|] == es;
  }

  /** Clusters a file of n bytes takes. */
  function ClustersFor(n: nat): nat {
    (n + SECTOR - 1) / SECTOR
  }

  /** The entries of directory p: the two dot entries unless it is the root, then its
      items. */
  ghost predicate Lists(p: nat, es: seq<seq<byte>>, items: seq<Item>)
    requires AllFit(items)
  {
    if p == ROOT then es == ItemEntries(items) else |es| >= 2 && es[2..] == ItemEntries(items)
  }

  function ChainOf(d: Disk, h: nat): seq<nat> {
    if h in d.chains then d.chains[h] else []
  }

  function ContentOf(d: Disk, h: nat): seq<byte> {
    if h in d.content then d.content[h] else []
  }

  /** An item of directory p stands for a directory made later, or for a file whose chain
      holds its data in as few clusters as possible; an empty file has no chain. */
  ghost predicate ItemOk(d: Disk, names: set<nat>, p: nat, it: Item) {
    match it
    case DirItem(_, c) => c in names && c > p
    case FileItem(_, data, c) =>
      if data == [] then c == 0
      else c in d.chains && c !in names && ContentOf(d, c) == data && |ChainOf(d, c)| == ClustersFor(|data|)
  }

  ghost predicate ItemsOk(d: Disk, names: set<nat>, p: nat, items: seq<Item>) {
    forall k | 0 <= k < |items| :: ItemOk(d, names, p, items[k])
  }

  ghost predicate DirOk(d: Disk, names: set<nat>, p: nat, es: seq<seq<byte>>, items: seq<Item>) {
    && p in d.chains && ContentOf(d, p) == Flat(es) && AllInUse(es)
    && AllFit(items) && Lists(p, es, items) && ItemsOk(d, names, p, items)
  }

  /** ents lists the raw entries of each directory, dirs the items they stand for. */
  ghost predicate Directories(d: Disk, ents: map<nat, seq<seq<byte>>>, dirs: map<nat, seq<Item>>) {
    && (forall p: nat {:trigger p in ents} :: p in ents <==> p in dirs)
    && ROOT in dirs
    && forall p {:trigger DirHere(d, ents, dirs, p)} | p in dirs :: DirHere(d, ents, dirs, p)
  }

  ghost predicate DirHere(d: Disk, ents: map<nat, seq<seq<byte>>>, dirs: map<nat, seq<Item>>, p: nat) {
    p in ents && p in dirs && DirOk(d, dirs.Keys, p, ents[p], dirs[p])
  }

  /** The clusters of directory p with n items: 16 entries each, and the two dot entries come
      first unless p is the root. */
  function DirClusters(p: nat, n: nat): nat {
    var entries := if p == ROOT then n else n + 2;
    if entries == 0 then 1 else (entries + 15) / 16
  }

  /** The clusters that one more item of directory p takes. */
  function Extra(p: nat, n: nat): nat {
    DirClusters(p, n + 1) - DirClusters(p, n)
  }

  /** No directory has more clusters than its entries need. */
  ghost predicate Tight(chains: map<nat, seq<nat>>, dirs: map<nat, seq<Item>>) {
    forall p {:trigger p in dirs} | p in dirs :: p in chains && |chains[p]| == DirClusters(p, |dirs[p]|)
  }

  lemma EntryCount(d: Disk, ents: map<nat, seq<seq<byte>>>, dirs: map<nat, seq<Item>>, p: nat)
    requires Directories(d, ents, dirs) && p in dirs
    ensures p in ents && |ents[p]| == |dirs[p]| + if p == ROOT then 0 else 2
  {
    assert DirHere(d, ents, dirs, p);
  }

  /** The next entry needs a new cluster exactly when the entries fill the chain. */
  lemma FullIff(d: Disk, ents: map<nat, seq<seq<byte>>>, dirs: map<nat, seq<Item>>, p: nat)
    requires Directories(d, ents, dirs) && Tight(d.chains, dirs) && p in dirs
    ensures p in ents && p in d.chains && Extra(p, |dirs[p]|) == if 32 * |ents[p]| == SECTOR * |d.chains[p]| then 1
        else 0
  {
    EntryCount(d, ents, dirs, p);
  }

  lemma TightPush(chains: map<nat, seq<nat>>, chains': map<nat, seq<nat>>, dirs: map<nat, seq<Item>>, p: nat, it: Item)
    requires Tight(chains, dirs) && p in dirs && p in chains && chains'.Keys == chains.Keys
    requires |chains'[p]| == |chains[p]| + Extra(p, |dirs[p]|) && forall h | h in chains && h != p ::
        chains'[h] == chains[h]
    ensures Tight(chains', dirs[p := dirs[p] + [it]])
  {
  }

  lemma TightKept(chains: map<nat, seq<nat>>, chains': map<nat, seq<nat>>, dirs: map<nat, seq<Item>>)
    requires Tight(chains, dirs) && forall h | h in chains :: h in chains' && chains'[h] == chains[h]
    ensures Tight(chains', dirs)
  {
  }

  lemma TightMade(chains: map<nat, seq<nat>>, dirs: map<nat, seq<Item>>, c: nat)
    requires Tight(chains, dirs) && c !in dirs && c !in chains && c != ROOT
    ensures Tight(chains[c := [c]], dirs[c := []])
  {
  }

  /** d' has the chains of d and perhaps more; those of files are the same. */
  ghost predicate Keeps(d: Disk, d': Disk, names: set<nat>) {
    forall h {:trigger h in d.chains} | h in d.chains ::
      h in d'.chains && ContentOf(d', h) == ContentOf(d, h) && (h !in names ==> ChainOf(d', h) == ChainOf(d, h))
  }

  /** Chains that are not a directory's, and more chains, do not matter to directories. */
  lemma DirectoriesKept(d: Disk, d': Disk, ents: map<nat, seq<seq<byte>>>, dirs: map<nat, seq<Item>>)
    requires Directories(d, ents, dirs) && Keeps(d, d', dirs.Keys)
    ensures Directories(d', ents, dirs)
  {
    forall p | p in dirs ensures DirHere(d', ents, dirs, p) {
      assert DirHere(d, ents, dirs, p);
      ItemsKept(d, d', dirs.Keys, dirs.Keys, p, dirs[p]);
    }
  }

  lemma ItemsKept(d: Disk, d': Disk, names: set<nat>, names': set<nat>, p: nat, items: seq<Item>)
    requires ItemsOk(d, names, p, items) && names <= names'
    requires forall h {:trigger h in d.chains} | h in d.chains && h !in names ::
               h !in names' && h in d'.chains && ContentOf(d', h) == ContentOf(d, h) && ChainOf(d', h) == ChainOf(d, h)
    ensures ItemsOk(d', names', p, items)
  {
    forall k | 0 <= k < |items| ensures ItemOk(d', names', p, items[k]) {
      assert ItemOk(d, names, p, items[k]);
    }
  }

  /** One more item in directory p. */
  lemma DirectoriesPush(d: Disk, d': Disk, ents: map<nat, seq<seq<byte>>>, dirs: map<nat, seq<Item>>, p: nat, it: Item)
    requires Directories(d, ents, dirs) && p in dirs && p in ents && ItemFits(it) && ItemOk(d, dirs.Keys, p, it)
    requires forall h {:trigger h in d.chains} | h in d.chains ::
               && h in d'.chains && ContentOf(d', h) == (if h == p then ContentOf(d, p) + ItemEntry(it)
                                                         else ContentOf(d, h))
               && (h !in dirs ==> ChainOf(d', h) == ChainOf(d, h))
    ensures Directories(d', ents[p := ents[p] + [ItemEntry(it)]], dirs[p := dirs[p] + [it]])
  {
    hide ItemOk, Lists, AllFit, AllInUse, Flat, ItemEntry;
    var ents' := ents[p := ents[p] + [ItemEntry(it)]];
    var dirs' := dirs[p := dirs[p] + [it]];
    assert dirs'.Keys == dirs.Keys;
    assert DirHere(d, ents, dirs, p);
    DirPush(d, d', dirs.Keys, p, ents[p], dirs[p], it);
    forall q | q in dirs' ensures DirHere(d', ents', dirs', q) {
      if q != p {
        assert DirHere(d, ents, dirs, q);
        ItemsKept(d, d', dirs.Keys, dirs.Keys, q, dirs[q]);
      }
    }
  }

  lemma ListsPush(p: nat, es: seq<seq<byte>>, items: seq<Item>, it: Item)
    requires AllFit(items) && Lists(p, es, items) && ItemFits(it)
    ensures AllFit(items + [it]) && Lists(p, es + [ItemEntry(it)], items + [it])
  {
    var e := ItemEntry(it);
    assert p != ROOT ==> (es + [e])[2..] == es[2..] + [e];
    assert ItemEntries(items + [it]) == ItemEntries(items) + [e];
  }

  lemma DirPush(d: Disk, d': Disk, names: set<nat>, p: nat, es: seq<seq<byte>>, items: seq<Item>, it: Item)
    requires DirOk(d, names, p, es, items) && p in names && ItemFits(it) && ItemOk(d, names, p, it)
    requires forall h {:trigger h in d.chains} | h in d.chains ::
               && h in d'.chains && ContentOf(d', h) == (if h == p then ContentOf(d, p) + ItemEntry(it)
                                                         else ContentOf(d, h))
               && (h !in names ==> ChainOf(d', h) == ChainOf(d, h))
    ensures DirOk(d', names, p, es + [ItemEntry(it)], items + [it])
  {
    hide InUse, Lists, Flat, ItemEntry, AllFit, AllInUse, ItemsOk;
    FlatPush(es, ItemEntry(it));
    InUsePush(es, it);
    ListsPush(p, es, items, it);
    ItemsPush(d, d', names, p, items, it);
  }

  lemma InUsePush(es: seq<seq<byte>>, it: Item)
    requires AllInUse(es) && ItemFits(it)
    ensures AllInUse(es + [ItemEntry(it)])
  {
    ItemInUse(it);
  }

  lemma ItemsPush(d: Disk, d': Disk, names: set<nat>, p: nat, items: seq<Item>, it: Item)
    requires ItemsOk(d, names, p, items) && p in names && ItemOk(d, names, p, it)
    requires forall h {:trigger h in d.chains} | h in d.chains && h !in names ::
               h in d'.chains && ContentOf(d', h) == ContentOf(d, h) && ChainOf(d', h) == ChainOf(d, h)
    ensures ItemsOk(d', names, p, items + [it])
  {
    forall k | 0 <= k < |items + [it]| ensures ItemOk(d', names, p, (items + [it])[k]) {
      assert ItemOk(d, names, p, (items + [it])[k]);
    }
  }

  lemma FlatLength(es: seq<seq<byte>>)
    requires AllInUse(es)
    ensures |Flat(es)| == 32 * |es|
  {
    FlatAt(es, 0);
  }

  /** The first free slot of cluster j lies right behind the entries, if they do not reach
      past the cluster. */
  lemma SlotFound(es: seq<seq<byte>>, j: nat, at: nat)
    requires AllInUse(es) && 16 * j <= |es| && at % 32 == 0 && at <= SECTOR
    requires var buf := Block(Flat(es), j);
      && (forall k | 0 <= k < at / 32 :: buf[32 * k] != 0 && buf[32 * k] != 0xE5)
      && (at < SECTOR ==> buf[at] == 0 || buf[at] == 0xE5)
    ensures if |es| < 16 * (j + 1) then at == 32 * (|es| - 16 * j) else at == SECTOR
  {
    hide Block, AllInUse, Flat;
    var s := at / 32;
    if s < 16 {
      SlotByte(es, j, s);
    }
    if s > 0 {
      SlotByte(es, j, s - 1);
    }
  }

  /** Slot k of cluster j is marked as in use exactly when an entry stands there. */
  lemma SlotByte(es: seq<seq<byte>>, j: nat, k: nat)
    requires AllInUse(es) && k < 16
    ensures var b := Block(Flat(es), j)[32 * k]; 16 * j + k < |es| <==> b != 0 && b != 0xE5
  {
    var q := 16 * j + k;
    FlatLength(es);
    if q < |es| {
      FlatStart(es, q);
    }
    hide Flat, AllInUse, Block;
    BlockAt(Flat(es), j, 32 * k);
    assert SECTOR * j + 32 * k == 32 * q;
  }

  lemma BlockAt(bytes: seq<byte>, j: nat, i: nat)
    requires i < SECTOR
    ensures Block(bytes, j)[i] == At(bytes, SECTOR * j + i)
  {
  }

  lemma FlatStart(es: seq<seq<byte>>, q: nat)
    requires AllInUse(es) && q < |es|
    ensures |Flat(es)| == 32 * |es| && Flat(es)[32 * q] == es[q][0] && InUse(es[q])
  {
    assert 32 * q / 32 == q && 32 * q % 32 == 0;
    FlatAt(es, 32 * q);
  }

  lemma ItemInUse(it: Item)
    requires ItemFits(it)
    ensures InUse(ItemEntry(it))
  {
    match it
    case FileItem(name, data, c) => EntryReads(name, ATTR_FILE, c, |data|);
    case DirItem(name, c) => EntryReads(name, ATTR_DIR, c, 0);
  }
}

/** The disk image: its layout, and how to find things in it (scripts/build_disk.py:29-39,
    135-202). */
module Fat32Layout {
  import opened Basics
  import opened Bytes
  import opened DirEntries
  import opened Fat32Chains

  const RESERVED := 32
  const NUM_FATS := 2

  /** The layout of a disk of so many sectors (build_disk.py:29-36). */
  function SectorsPerFat(total: nat): nat {
    if total < RESERVED then 0 else ((total - RESERVED) * 4 + SECTOR - 1) / SECTOR
  }

  function DataStart(total: nat): nat {
    RESERVED + NUM_FATS * SectorsPerFat(total)
  }

  /** A disk with at least one data cluster, whose clusters FAT32 can number and whose
      sectors fit the boot sector's field. */
  predicate ValidLayout(total: nat) {
    DataStart(total) < total < 0x1_0000_0000 && total - DataStart(total) + 2 <= MEDIA
  }

  function TotalClusters(total: nat): nat
    requires ValidLayout(total)
  {
    total - DataStart(total)
  }

  /** The FAT region has room for the entries of all clusters. */
  lemma FatHasRoom(total: nat)
    requires ValidLayout(total)
    ensures (TotalClusters(total) + 2) * 4 <= SectorsPerFat(total) * SECTOR
  {
  }

  /** The boot sector fields that locate the rest, and its signature. */
  ghost predicate BootFields(b: seq<byte>, total: nat) {
    && |b| >= SECTOR
    && U16(b, 11) == SECTOR && b[13] == 1 && U16(b, 14) == RESERVED && b[16] == NUM_FATS
    && U32(b, 32) == total && U32(b, 36) == SectorsPerFat(total) && U32(b, 44) == 2
    && b[510] == 0x55 && b[511] == 0xAA
  }

  function Ascii(s: string): (b: seq<byte>)
    requires Encodable(s)
    ensures |b| == |s|
  {
    Encode(s)
  }

  /** The fields that no reader needs, and the bytes that no field has. */
  ghost predicate BootRest(b: seq<byte>) {
    && |b| == SECTOR
    && b[..3] == [0xEB, 0x58, 0x90] && b[3..11] == Ascii("MSWIN4.1")
    && b[17..21] == Zeros(4) && b[21] == 0xF8 && b[22..24] == Zeros(2)
    && b[24..26] == Le16(63) && b[26..28] == Le16(255) && b[28..32] == Zeros(4) && b[40..44] == Zeros(4)
    && b[48..50] == Le16(1) && b[50..52] == Le16(6)
    && b[64] == 0x80 && b[66] == 0x29 && b[67..71] == Le32(0x12345678) && b[71..82] == Ascii("XENITHRAESP")
    && b[82..90] == Ascii("FAT32   ")
    && forall k | 52 <= k < 64 || k == 65 || 90 <= k < 510 :: b[k] == 0
  }

  ghost predicate InfoFields(b: seq<byte>, free: nat, next: nat) {
    && |b| == SECTOR
    && b[..4] == Ascii("RRaA") && b[484..488] == Ascii("rrAa") && b[488..492] == Le32(free) && b[492..496] == Le32(next)
    && b[510..] == [0x55, 0xAA] && forall k | 4 <= k < 484 || 496 <= k < 510 :: b[k] == 0
  }

  /** The first two sectors of an image. */
  ghost predicate HeadOf(img: seq<byte>, free: nat, next: nat) {
    |img| >= 2 * SECTOR && BootRest(img[..SECTOR]) && InfoFields(img[SECTOR..2 * SECTOR], free, next)
  }

  lemma HeadIs(boot: seq<byte>, info: seq<byte>, img: seq<byte>, free: nat, next: nat)
    requires |img| >= 2 * SECTOR && img[..SECTOR] == boot && img[SECTOR..2 * SECTOR] == info
    requires BootRest(boot) && InfoFields(info, free, next)
    ensures HeadOf(img, free, next)
  {
  }

  /** Byte k of a FAT of which the first n entries are written. */
  function FatByte(fat: seq<nat>, n: nat, k: nat): byte
    requires n <= |fat|
  {
    if k / 4 < n then LeByte(fat[k / 4] % 0x1000_0000, k % 4) else 0
  }

  ghost predicate IsFat(b: seq<byte>, fat: seq<nat>, spf: nat) {
    |b| == spf * SECTOR && forall k | 0 <= k < |b| :: b[k] == FatByte(fat, |fat|, k)
  }

  /** Clusters 2 to n - 1, one after another. */
  function DataArea(data: map<nat, seq<byte>>, n: nat): seq<byte> {
    if n <= 2 then [] else DataArea(data, n - 1) + Cluster(data, n - 1)
  }

  ghost predicate Sized(data: map<nat, seq<byte>>) {
    forall c | c in data :: |data[c]| == SECTOR
  }

  lemma {:induction false} DataAreaAt(data: map<nat, seq<byte>>, n: nat, c: nat)
    requires Sized(data) && 2 <= n
    ensures |DataArea(data, n)| == SECTOR * (n - 2)
    ensures 2 <= c < n ==> DataArea(data, n)[SECTOR * (c - 2)..SECTOR * (c - 2) + SECTOR] == Cluster(data, c)
  {
    if n > 2 {
      DataAreaAt(data, n - 1, c);
      var before := DataArea(data, n - 1);
      if 2 <= c < n - 1 {
        assert DataArea(data, n)[SECTOR * (c - 2)..SECTOR * (c - 2) + SECTOR] ==
            before[SECTOR * (c - 2)..SECTOR * (c - 2) + SECTOR];
      }
    }
  }

  /** Where a cluster begins in the image. */
  function ClusterAt(total: nat, c: nat): nat
    requires c >= 2
  {
    (DataStart(total) + (c - 2)) * SECTOR
  }

  /** Both copies of the FAT hold every entry. */
  ghost predicate FatsIn(img: seq<byte>, fat: seq<nat>, total: nat) {
    var spf := SectorsPerFat(total);
    && DataStart(total) * SECTOR <= |img|
    && IsFat(img[RESERVED * SECTOR..(RESERVED + spf) * SECTOR], fat, spf)
    && img[RESERVED * SECTOR..(RESERVED + spf) * SECTOR] == img[(RESERVED + spf) * SECTOR..DataStart(total) * SECTOR]
  }

  /** Each cluster is in its place. */
  ghost predicate ClustersIn(img: seq<byte>, data: map<nat, seq<byte>>, next: nat, total: nat) {
    forall c: nat {:trigger ClusterAt(total, c)} | 2 <= c < next ::
      ClusterAt(total, c) + SECTOR <= |img|
        && img[ClusterAt(total, c)..ClusterAt(total, c) + SECTOR] == Cluster(data, c)
  }

  /** Nothing but zeros behind the clusters in use. */
  ghost predicate ZeroFrom(img: seq<byte>, next: nat, total: nat)
    requires next >= 2
  {
    forall k | ClusterAt(total, next) <= k < |img| :: img[k] == 0
  }

  /** img is the image of disk d. */
  ghost predicate ImageOf(img: seq<byte>, d: Disk, total: nat) {
    && ValidLayout(total) && |img| == total * SECTOR && BootFields(img, total)
    && |d.fat| == TotalClusters(total) + 2 && 2 <= d.next <= TotalClusters(total)
    && FatsIn(img, d.fat, total) && ClustersIn(img, d.data, d.next, total) && ZeroFrom(img, d.next, total)
  }

  /** The parts, put one after another, are such an image. */
  lemma Assembled(boot: seq<byte>, info: seq<byte>, f: seq<byte>, d: Disk, total: nat, img: seq<byte>)
    requires ValidLayout(total) && |boot| == SECTOR && BootFields(boot, total) && |info| == SECTOR
    requires IsFat(f, d.fat, SectorsPerFat(total)) && Sized(d.data)
    requires |d.fat| == TotalClusters(total) + 2 && 2 <= d.next <= TotalClusters(total)
    requires img == boot + info + Zeros((RESERVED - 2) * SECTOR) + f + f + DataArea(d.data, d.next)
                    + Zeros((TotalClusters(total) - (d.next - 2)) * SECTOR)
    ensures ImageOf(img, d, total)
    ensures |img| >= RESERVED * SECTOR && img[..SECTOR] == boot && img[SECTOR..2 * SECTOR] == info
  {
    var head := boot + info + Zeros((RESERVED - 2) * SECTOR);
    DataAreaAt(d.data, d.next, 2);
    hide DataArea, BootFields, FatsIn, ClustersIn, ZeroFrom, Zeros;
    assert |f| == SectorsPerFat(total) * SECTOR;
    hide IsFat;
    PartsAt(head, f, DataArea(d.data, d.next), Zeros((TotalClusters(total) - (d.next - 2)) * SECTOR), img, d.fat,
            d.next, total);
    BootAt(boot, info, head, img, total);
    ClustersAt(d.data, d.next, img, total);
  }

  lemma BootAt(boot: seq<byte>, info: seq<byte>, head: seq<byte>, img: seq<byte>, total: nat)
    requires |boot| == SECTOR && BootFields(boot, total) && |info| == SECTOR
    requires head == boot + info + Zeros((RESERVED - 2) * SECTOR) && |head| <= |img| && img[..|head|] == head
    ensures BootFields(img, total)
    ensures |img| >= RESERVED * SECTOR && img[..SECTOR] == boot && img[SECTOR..2 * SECTOR] == info
  {
    assert img[..SECTOR] == head[..SECTOR] == boot;
    assert head[SECTOR..2 * SECTOR] == info;
    SliceOfSlice(img, 0, head, SECTOR);
    FieldsIn(boot, img, total);
  }

  lemma ClustersAt(data: map<nat, seq<byte>>, next: nat, img: seq<byte>, total: nat)
    requires Sized(data) && 2 <= next
    requires var area := DataArea(data, next); var at := DataStart(total) * SECTOR;
      at + |area| <= |img| && img[at..at + |area|] == area
    ensures ClustersIn(img, data, next, total)
  {
    forall c: nat | 2 <= c < next
      ensures ClusterAt(total, c) + SECTOR <= |img|
          && img[ClusterAt(total, c)..ClusterAt(total, c) + SECTOR] == Cluster(data, c)
    {
      OneClusterAt(data, next, img, DataStart(total) * SECTOR, c);
    }
  }

  lemma OneClusterAt(data: map<nat, seq<byte>>, next: nat, img: seq<byte>, at: nat, c: nat)
    requires Sized(data) && 2 <= c < next
    requires var area := DataArea(data, next); at + |area| <= |img| && img[at..at + |area|] == area
    ensures var k := at + (c - 2) * SECTOR; k + SECTOR <= |img| && img[k..k + SECTOR] == Cluster(data, c)
  {
    DataAreaAt(data, next, c);
    hide DataArea;
    SliceOfSlice(img, at, DataArea(data, next), SECTOR * (c - 2));
  }

  lemma PartsAt(head: seq<byte>, f: seq<byte>, area: seq<byte>, pad: seq<byte>, img: seq<byte>, fat: seq<nat>,
                next: nat, total: nat)
    requires ValidLayout(total) && 2 <= next <= TotalClusters(total) && IsFat(f, fat, SectorsPerFat(total))
    requires |head| == RESERVED * SECTOR && |area| == SECTOR * (next - 2)
    requires pad == Zeros((TotalClusters(total) - (next - 2)) * SECTOR)
    requires img == head + f + f + area + pad
    ensures |img| == total * SECTOR && img[..|head|] == head
    ensures FatsIn(img, fat, total) && ZeroFrom(img, next, total)
    ensures img[DataStart(total) * SECTOR..DataStart(total) * SECTOR + |area|] == area
  {
    var spf := SectorsPerFat(total);
    assert img[RESERVED * SECTOR..(RESERVED + spf) * SECTOR] == f;
    assert img[(RESERVED + spf) * SECTOR..DataStart(total) * SECTOR] == f;
  }

  lemma SliceOfSlice(s: seq<byte>, at: nat, t: seq<byte>, from: nat)
    requires at + |t| <= |s| && s[at..at + |t|] == t && from + SECTOR <= |t|
    ensures s[at + from..at + from + SECTOR] == t[from..from + SECTOR]
  {
    var u, v := s[at + from..at + from + SECTOR], t[from..from + SECTOR];
    forall i | 0 <= i < SECTOR ensures u[i] == v[i] {
      assert s[at..at + |t|][from + i] == t[from + i];
    }
  }

  lemma FieldsIn(boot: seq<byte>, img: seq<byte>, total: nat)
    requires |boot| == SECTOR && BootFields(boot, total) && |img| >= SECTOR && img[..SECTOR] == boot
    ensures BootFields(img, total)
  {
    assert forall i | 0 <= i < SECTOR :: img[i] == img[..SECTOR][i];
  }
}

/** scripts/build_disk.py: the builder. */
module Fat32Builder {
  import opened Basics
  import opened Bytes
  import opened Fat32Chains
  import opened DirEntries
  import opened Fat32Dirs

  import opened Fat32Layout

  /** On the way from d0: a new chain of k clusters holds the first bytes of data; nothing
      else changed. */
  ghost predicate Filling(d0: Disk, d: Disk, data: seq<byte>, offset: nat, k: nat) {
    && offset <= |data| && 0 < k && d.next == d0.next + k
    && d.chains.Keys == d0.chains.Keys + {d0.next} && d0.next !in d0.chains && |d.chains[d0.next]| == k
    && (forall h | h in d0.chains :: d.chains[h] == d0.chains[h])
    && d.content == d0.content[d0.next := data[..offset]]
  }

  lemma FillingStarts(d0: Disk, data: seq<byte>)
    requires d0.next < |d0.fat| && d0.next !in d0.chains
    ensures Filling(d0, Opened(d0), data, 0, 1)
  {
  }

  lemma FillingAppends(d0: Disk, d: Disk, data: seq<byte>, offset: nat, k: nat, chunk: seq<byte>)
    requires Filling(d0, d, data, offset, k) && offset < |data| && offset == SECTOR * (k - 1)
    requires offset + |chunk| <= |data| && |chunk| <= SECTOR && chunk == data[offset..offset + |chunk|]
    ensures var first := d0.next; first in d.content && |d.content[first]| == offset
    ensures |Cluster(d.data, d.chains[d0.next][k - 1])| == SECTOR ==>
              Filling(d0, Appended(d, d0.next, chunk), data, offset + |chunk|, k)
  {
    assert data[..offset] + chunk == data[..offset + |chunk|];
    assert offset / SECTOR == k - 1 && offset % SECTOR == 0;
  }

  lemma FillingGrows(d0: Disk, d: Disk, data: seq<byte>, offset: nat, k: nat)
    requires Filling(d0, d, data, offset, k) && d.next < |d.fat| && d.chains[d0.next][k - 1] < |d.fat|
    ensures Filling(d0, Extended(d, d0.next), data, offset, k + 1)
    ensures Extended(d, d0.next).chains[d0.next][k] == d.next
  {
  }

  /** The effect of writing a file: a new chain, as short as possible, that holds the data. */
  ghost predicate NewFile(d0: Disk, d: Disk, first: nat, data: seq<byte>) {
    first == d0.next && Filling(d0, d, data, |data|, ClustersFor(|data|))
  }

  lemma DirectoryFacts(d: Disk, ents: map<nat, seq<seq<byte>>>, dirs: map<nat, seq<Item>>, p: nat)
    requires Sound(d) && Directories(d, ents, dirs) && p in dirs
    ensures p in ents && p in d.chains && p in d.content && d.content[p] == Flat(ents[p]) && AllInUse(ents[p])
    ensures 2 <= p < d.next <= MEDIA && d.next !in dirs
  {
    DirIsChain(d, ents, dirs, p);
    assert ChainOk(d, p);
    ChainAt(d, p, 0);
    NextIsNew(d);
    if d.next in dirs {
      DirIsChain(d, ents, dirs, d.next);
    }
  }

  lemma DirIsChain(d: Disk, ents: map<nat, seq<seq<byte>>>, dirs: map<nat, seq<Item>>, p: nat)
    requires Sound(d) && Directories(d, ents, dirs) && p in dirs
    ensures p in ents && p in d.chains && p in d.content && d.content[p] == Flat(ents[p]) && AllInUse(ents[p])
  {
    assert DirHere(d, ents, dirs, p);
  }

  lemma FileWritten(d0: Disk, d: Disk, ents: map<nat, seq<seq<byte>>>, dirs: map<nat, seq<Item>>, data: seq<byte>,
                    first: nat, name: string)
    requires Sound(d0) && Directories(d0, ents, dirs) && d0.next !in dirs
    requires if data == [] then d == d0 && first == 0 else NewFile(d0, d, first, data)
    ensures Directories(d, ents, dirs)
    ensures forall p :: ItemOk(d, dirs.Keys, p, FileItem(name, data, first))
  {
    assert data[..|data|] == data;
    assert Keeps(d0, d, dirs.Keys);
    DirectoriesKept(d0, d, ents, dirs);
  }

  lemma FlatTwo(e1: seq<byte>, e2: seq<byte>)
    ensures Flat([e1, e2]) == [] + e1 + e2
  {
    var none: seq<seq<byte>> := [];
    FlatPush(none, e1);
    FlatPush([e1], e2);
    assert none + [e1] == [e1] && [e1] + [e2] == [e1, e2];
  }

  lemma NewDirOk(d: Disk, names: set<nat>, c: nat, parent: nat)
    requires c in d.chains && c in d.content && c != ROOT && c < MEDIA && parent < MEDIA
    requires d.content[c] == [] + CreateDirEntry(".", ATTR_DIR, c, 0) + CreateDirEntry("..", ATTR_DIR, parent, 0)
    ensures DirOk(d, names, c, [CreateDirEntry(".", ATTR_DIR, c, 0), CreateDirEntry("..", ATTR_DIR, parent, 0)], [])
  {
    var e1, e2 := CreateDirEntry(".", ATTR_DIR, c, 0), CreateDirEntry("..", ATTR_DIR, parent, 0);
    EntryReads(".", ATTR_DIR, c, 0);
    EntryReads("..", ATTR_DIR, parent, 0);
    FlatTwo(e1, e2);
    var none: seq<Item> := [];
    assert [e1, e2][2..] == ItemEntries(none);
  }

  /** A new directory that holds the two dot entries and no items. */
  lemma DirectoryMade(d0: Disk, d: Disk, ents: map<nat, seq<seq<byte>>>, dirs: map<nat, seq<Item>>, c: nat, parent: nat)
    requires Sound(d0) && Directories(d0, ents, dirs) && c == d0.next && c !in dirs && c != ROOT
    requires c < MEDIA && parent < MEDIA
    requires d.chains == d0.chains[c := [c]] && c !in d0.chains
    requires d.content == d0.content[c := [] + CreateDirEntry(".", ATTR_DIR, c, 0)
                                     + CreateDirEntry("..", ATTR_DIR, parent, 0)]
    ensures Directories(d, ents[c := [CreateDirEntry(".", ATTR_DIR, c, 0), CreateDirEntry("..", ATTR_DIR, parent, 0)]],
                        dirs[c := []])
  {
    var ents' := ents[c := [CreateDirEntry(".", ATTR_DIR, c, 0), CreateDirEntry("..", ATTR_DIR, parent, 0)]];
    var dirs' := dirs[c := []];
    NewDirOk(d, dirs'.Keys, c, parent);
    hide CreateDirEntry, Flat, AllInUse, Lists, ItemsOk;
    forall p | p in dirs' ensures DirHere(d, ents', dirs', p) {
      if p != c {
        assert DirHere(d0, ents, dirs, p);
        ItemsKept(d0, d, dirs.Keys, dirs'.Keys, p, dirs[p]);
      }
    }
  }

  lemma SameKeys(d: Disk)
    requires Sound(d)
    ensures forall h: nat {:trigger h in d.chains} {:trigger h in d.content} :: h in d.chains <==> h in d.content
  {
  }

  lemma EntryOfDir(name: string, c: nat)
    requires Encodable(name)
    ensures ItemEntry(DirItem(name, c)) == CreateDirEntry(name, ATTR_DIR, c, 0)
  {
  }

  /** b[at:at+len(x)] = x on a bytearray. */
  method PutBytes(b: array<byte>, at: nat, x: seq<byte>)
    requires at + |x| <= b.Length
    modifies b
    ensures forall k | 0 <= k < b.Length :: b[k] == if at <= k < at + |x| then x[k - at] else old(b[k])
  {
    for i := 0 to |x|
      invariant forall k | 0 <= k < b.Length :: b[k] == if at <= k < at + i then x[k - at] else old(b[k])
    {
      b[at + i] := x[i];
    }
  }

  lemma NextEntry(before: seq<byte>, after: seq<byte>, fat: seq<nat>, i: nat)
    requires i < |fat| && |after| == |before| && i * 4 + 4 <= |before|
    requires forall k | 0 <= k < |before| :: before[k] == FatByte(fat, i, k)
    requires forall k | 0 <= k < |after| ::
               after[k] == if i * 4 <= k < i * 4 + 4 then Le32(fat[i] % 0x1000_0000)[k - i * 4] else before[k]
    ensures forall k | 0 <= k < |after| :: after[k] == FatByte(fat, i + 1, k)
  {
    forall k | 0 <= k < |after| ensures after[k] == FatByte(fat, i + 1, k) {
      if k / 4 == i {
        assert k % 4 == k - i * 4;
      }
    }
  }

  lemma DataSized(d: Disk)
    requires Sound(d)
    ensures Sized(d.data) && 2 <= d.next
  {
  }

  lemma FatLength(b: seq<byte>, fat: seq<nat>, total: nat)
    requires IsFat(b, fat, SectorsPerFat(total))
    ensures |b| == SectorsPerFat(total) * SECTOR
  {
  }

  class Builder {
    const totalSectors: nat
    var fat: array<nat>
    var nextFree: nat
    var clusterData: map<nat, seq<byte>>

    ghost var chains: map<nat, seq<nat>>
    ghost var home: map<nat, (nat, nat)>
    ghost var content: map<nat, seq<byte>>
    ghost var ents: map<nat, seq<seq<byte>>>
    /** What has been added to each directory, in order. */
    ghost var dirs: map<nat, seq<Item>>

    ghost function Now(): Disk
      reads this, fat
    {
      Disk(fat[..], nextFree, clusterData, chains, home, content)
    }

    /** The chains are sound and the FAT has an entry for each cluster. */
    ghost predicate ChainsValid()
      reads this, fat
    {
      Sound(Now()) && ValidLayout(totalSectors) && fat.Length == TotalClusters(totalSectors) + 2
    }

    ghost predicate Valid()
      reads this, fat
    {
      ChainsValid() && Directories(Now(), ents, dirs) && Tight(chains, dirs)
    }

    /** __init__ (build_disk.py:21-45). */
    constructor (total: nat)
      requires ValidLayout(total)
      ensures Valid() && fresh(fat) && totalSectors == total && nextFree == 3
      ensures dirs == map[ROOT := []]
    {
      totalSectors := total;
      fat := new nat[TotalClusters(total) + 2](_ => 0);
      nextFree := 3;
      clusterData := map[];
      chains := map[ROOT := [ROOT]];
      home := map[ROOT := (ROOT, 0)];
      content := map[ROOT := []];
      ents := map[ROOT := []];
      dirs := map[ROOT := []];
      new;
      fat[0] := MEDIA;
      fat[1] := EOC;
      fat[2] := EOC;
      assert LinkOk(Now(), ROOT, 0);
      EmptyBlock(0);
    }

    /** allocate_cluster (build_disk.py:52-56), while a cluster is left. */
    method AllocateCluster() returns (c: nat)
      requires nextFree < fat.Length
      modifies this`nextFree, fat
      ensures c == old(nextFree) && nextFree == c + 1
      ensures fat[..] == old(fat[..])[c := EOC]
    {
      c := nextFree;
      nextFree := nextFree + 1;
      fat[c] := EOC;
    }

    /** _get_cluster_bytes (build_disk.py:47-50). */
    method GetClusterBytes(c: nat) returns (buf: seq<byte>)
      modifies this`clusterData
      ensures buf == Cluster(old(clusterData), c) && clusterData == old(clusterData)[c := buf]
    {
      if c !in clusterData {
        clusterData := clusterData[c := Zeros(SECTOR)];
      }
      buf := clusterData[c];
      assert clusterData == old(clusterData)[c := buf];
    }

    /** A new chain (build_disk.py:63, 98). */
    method StartChain() returns (first: nat)
      requires ChainsValid() && nextFree < fat.Length
      modifies this`nextFree, this`chains, this`home, this`content, fat
      ensures ChainsValid() && first == old(nextFree) && first !in old(chains) && Now() == Opened(old(Now()))
    {
      hide Sound;
      ghost var d := Now();
      OpenedSound(d);
      first := AllocateCluster();
      chains, home, content := chains[first := [first]], home[first := (first, 0)], content[first := []];
      assert Now() == Opened(d);
    }

    /** The end of chain h is linked to a new cluster (build_disk.py:74-76, 125-127). */
    method GrowChain(ghost h: nat, cur: nat) returns (next: nat)
      requires ChainsValid() && nextFree < fat.Length
      requires h in chains && |chains[h]| > 0 && cur == chains[h][|chains[h]| - 1] && cur < fat.Length
      modifies this`nextFree, this`chains, this`home, fat
      ensures ChainsValid() && next == old(nextFree) && Now() == Extended(old(Now()), h)
    {
      hide Sound;
      ghost var d := Now();
      ExtendedSound(d, h);
      next := AllocateCluster();
      fat[cur] := next;
      home := home[next := (h, |chains[h]|)];
      chains := chains[h := chains[h] + [next]];
      assert Now() == Extended(d, h);
    }

    /** Bytes written into a cluster of chain h behind its content (build_disk.py:69-70,
        121). */
    method WriteBytes(ghost h: nat, cur: nat, at: nat, x: seq<byte>)
      requires ChainsValid() && h in chains && h in content && at == |content[h]| % SECTOR && at + |x| <= SECTOR
      requires |content[h]| / SECTOR < |chains[h]| && cur == chains[h][|content[h]| / SECTOR]
      modifies this`clusterData, this`content
      ensures |Cluster(old(clusterData), cur)| == SECTOR
      ensures ChainsValid() && Now() == Appended(old(Now()), h, x)
    {
      hide Sound;
      ghost var d := Now();
      AppendedSound(d, h, x);
      var buf := GetClusterBytes(cur);
      clusterData := clusterData[cur := Patched(buf, at, x)];
      content := content[h := content[h] + x];
      assert Now() == Appended(d, h, x);
    }

    /** One turn of the loop of write_file (build_disk.py:67-78). */
    method WriteChunk(ghost d0: Disk, data: seq<byte>, offset: nat, ghost k: nat, cur: nat)
      returns (cur': nat, offset': nat, ghost k': nat)
      requires ChainsValid() && offset < |data| && offset == SECTOR * (k - 1)
          && nextFree + ClustersFor(|data|) <= fat.Length + k
      requires Filling(d0, Now(), data, offset, k) && cur == Now().chains[d0.next][k - 1]
      modifies this`nextFree, this`clusterData, this`chains, this`home, this`content, fat
      ensures ChainsValid() && offset < offset' <= |data|
      ensures Filling(d0, Now(), data, offset', k') && cur' == Now().chains[d0.next][k' - 1]
      ensures if offset' < |data| then offset' == SECTOR * (k' - 1) else k' == ClustersFor(|data|)
    {
      hide Sound, Appended, Extended;
      ghost var first := d0.next;
      k' := k;
      cur' := cur;
      var n := if offset + SECTOR <= |data| then SECTOR else |data| - offset;
      var chunk := data[offset..offset + n];
      FillingAppends(d0, Now(), data, offset, k, chunk);
      WriteBytes(first, cur, 0, chunk);
      offset' := offset + n;
      ChainEnd(Now(), first);
      if offset' < |data| {
        FillingGrows(d0, Now(), data, offset', k);
        cur' := GrowChain(first, cur);
        k' := k + 1;
      } else {
        ghost var d := Now();
        fat[cur] := EOC;
        assert Now() == d;
      }
    }

    /** write_file (build_disk.py:58-80): the first cluster of a new chain that holds the
        data, or 0 for no data. */
    method WriteFile(data: seq<byte>) returns (first: nat)
      requires ChainsValid() && nextFree + ClustersFor(|data|) <= fat.Length
      modifies this`nextFree, this`clusterData, this`chains, this`home, this`content, fat
      ensures ChainsValid() && nextFree == old(nextFree) + ClustersFor(|data|)
      ensures data == [] ==> first == 0 && Now() == old(Now())
      ensures data != [] ==> NewFile(old(Now()), Now(), first, data)
    {
      if |data| == 0 {
        return 0;
      }
      hide Sound;
      ghost var d0 := Now();
      first := StartChain();
      FillingStarts(d0, data);
      var cur := first;
      var offset := 0;
      ghost var k := 1;
      while offset < |data|
        invariant ChainsValid() && fat.Length == old(fat.Length) && first == d0.next
        invariant offset <= |data| && Filling(d0, Now(), data, offset, k) && cur == Now().chains[first][k - 1]
        invariant if offset < |data| then offset == SECTOR * (k - 1) else k == ClustersFor(|data|)
      {
        cur, offset, k := WriteChunk(d0, data, offset, k, cur);
      }
    }
  
    /** The scan of one cluster for a free slot (build_disk.py:119-120): its position, or
        512. */
    method FreeSlot(buf: seq<byte>) returns (at: nat)
      requires |buf| == SECTOR
      ensures at % 32 == 0 && at <= SECTOR
      ensures forall k | 0 <= k < at / 32 :: buf[32 * k] != 0 && buf[32 * k] != 0xE5
      ensures at < SECTOR ==> buf[at] == 0 || buf[at] == 0xE5
    {
      at := 0;
      while at < SECTOR
        invariant at % 32 == 0 && at <= SECTOR
        invariant forall k | 0 <= k < at / 32 :: buf[32 * k] != 0 && buf[32 * k] != 0xE5
      {
        if buf[at] == 0x00 || buf[at] == 0xE5 {
          return;
        }
        at := at + 32;
      }
    }

    /** Cluster j of a directory is scanned for a free slot (build_disk.py:118-121): it is
        behind the entries es, if that is in this cluster. */
    method ScanCluster(dir: nat, cur: nat, ghost j: nat, ghost es: seq<seq<byte>>) returns (at: nat)
      requires ChainsValid() && dir in chains && j < |chains[dir]| && cur == chains[dir][j]
      requires dir in content && content[dir] == Flat(es) && AllInUse(es) && 16 * j <= |es|
      modifies this`clusterData
      ensures ChainsValid() && if |es| < 16 * (j + 1) then at == 32 * (|es| - 16 * j) else at == SECTOR
    {
      ghost var d := Now();
      PlaceReads(d, dir, j);
      TouchedSound(d, cur);
      hide Sound;
      var buf := GetClusterBytes(cur);
      assert Now() == d.(data := d.data[cur := buf]);
      at := FreeSlot(buf);
      SlotFound(es, j, at);
    }

    /** On to the next cluster of the chain, which grows if there is none
        (build_disk.py:122-129). */
    method NextCluster(dir: nat, cur: nat, ghost j: nat) returns (next: nat)
      requires ChainsValid() && dir in chains && j < |chains[dir]| && cur == chains[dir][j]
      requires j + 1 == |chains[dir]| ==> nextFree < fat.Length
      modifies this`nextFree, this`chains, this`home, fat
      ensures ChainsValid() && chains.Keys == old(chains.Keys) && j + 1 < |chains[dir]| && next == chains[dir][j + 1]
      ensures if j + 1 < old(|chains[dir]|) then chains == old(chains) && nextFree == old(nextFree)
              else chains == old(chains)[dir := chains[dir]] && |chains[dir]| == j + 2 && nextFree == old(nextFree) + 1
    {
      PlaceReads(Now(), dir, j);
      hide Sound;
      if fat[cur] == EOC {
        next := GrowChain(dir, cur);
      } else {
        next := fat[cur];
      }
    }

    /** _add_entry_to_dir (build_disk.py:115-129): the entry goes into the first free slot,
        which is right behind the entries es, in a new cluster if the last one is full. */
    method AddEntryToDir(dir: nat, e: seq<byte>, ghost es: seq<seq<byte>>)
      requires ChainsValid() && dir in chains && dir in content && content[dir] == Flat(es) && AllInUse(es) && InUse(e)
          && |e| == 32
      requires 32 * |es| == SECTOR * |chains[dir]| ==> nextFree < fat.Length
      modifies this`nextFree, this`clusterData, this`chains, this`home, this`content, fat
      ensures ChainsValid() && content == old(content)[dir := old(content[dir]) + e]
      ensures chains.Keys == old(chains.Keys) && (forall h | h in chains && h != dir :: chains[h] == old(chains)[h])
      ensures nextFree == old(nextFree) + if 32 * |es| == SECTOR * old(|chains[dir]|) then 1 else 0
      ensures |chains[dir]| == old(|chains[dir]|) + nextFree - old(nextFree)
    {
      hide Sound, AllInUse, Flat, InUse;
      ContentFits(Now(), dir);
      FlatLength(es);
      ghost var j, chains0 := 0, chains;
      var cur := dir;
      while true
        invariant ChainsValid() && dir in chains && dir in content && content == old(content)
        invariant chains.Keys == chains0.Keys && forall h | h in chains && h != dir :: chains[h] == chains0[h]
        invariant j < |chains[dir]| && cur == chains[dir][j] && 16 * j <= |es| && 32 * |es| <= SECTOR * |chains[dir]|
        invariant fat.Length == old(fat.Length) && |chains[dir]| + old(nextFree) == |chains0[dir]| + nextFree
        invariant if chains[dir] == chains0[dir] then nextFree == old(nextFree)
                  else 32 * |es| == SECTOR * |chains0[dir]| && nextFree == old(nextFree) + 1 && 16 * j == |es|
        decreases |es| + 16 - 16 * j
      {
        var at := ScanCluster(dir, cur, j, es);
        if at < SECTOR {
          WriteBytes(dir, cur, at, e);
          return;
        }
        cur := NextCluster(dir, cur, j);
        j := j + 1;
      }
    }
  
    /** The entry of an item is put into its directory. */
    method AddItem(dir: nat, ghost it: Item, e: seq<byte>)
      requires Valid() && dir in dirs && ItemFits(it) && ItemOk(Now(), dirs.Keys, dir, it) && e == ItemEntry(it)
      requires nextFree + Extra(dir, |dirs[dir]|) <= fat.Length
      modifies this`nextFree, this`clusterData, this`chains, this`home, this`content, this`ents, this`dirs, fat
      ensures Valid() && dirs == old(dirs)[dir := old(dirs[dir]) + [it]]
      ensures nextFree == old(nextFree) + Extra(dir, old(|dirs[dir]|))
    {
      hide Sound, ItemOk, Directories, ItemEntry, Flat, AllInUse, Tight, Extra;
      ghost var d := Now();
      DirectoryFacts(d, ents, dirs, dir);
      FullIff(d, ents, dirs, dir);
      ItemInUse(it);
      AddEntryToDir(dir, e, ents[dir]);
      SameKeys(Now());
      DirectoriesPush(d, Now(), ents, dirs, dir, it);
      TightPush(d.chains, chains, dirs, dir, it);
      ents := ents[dir := ents[dir] + [e]];
      dirs := dirs[dir := dirs[dir] + [it]];
    }

    /** add_file (build_disk.py:110-113), for a file that fits. */
    method AddFile(dir: nat, name: string, data: seq<byte>)
      requires Valid() && dir in dirs && Encodable(name) && |data| < 0x1_0000_0000
      requires nextFree + ClustersFor(|data|) + Extra(dir, |dirs[dir]|) <= fat.Length
      modifies this`nextFree, this`clusterData, this`chains, this`home, this`content, this`ents, this`dirs, fat
      ensures Valid()
      ensures dirs == old(dirs)[dir := old(dirs[dir]) + [FileItem(name, data, if data == [] then 0 else old(nextFree))]]
      ensures nextFree == old(nextFree) + ClustersFor(|data|) + Extra(dir, old(|dirs[dir]|))
    {
      hide Sound, ItemOk, Directories, Tight, Extra;
      ghost var d0 := Now();
      DirectoryFacts(d0, ents, dirs, dir);
      var first := WriteFile(data);
      FileWritten(d0, Now(), ents, dirs, data, first, name);
      TightKept(d0.chains, chains, dirs);
      AddItem(dir, FileItem(name, data, first), CreateDirEntry(name, ATTR_FILE, first, |data|));
    }

    /** The first part of add_directory (build_disk.py:98-104): a directory with the two dot
        entries. */
    method NewDirectory(parent: nat) returns (c: nat)
      requires Valid() && parent in dirs && nextFree < fat.Length
      modifies this`nextFree, this`clusterData, this`chains, this`home, this`content, this`ents, this`dirs, fat
      ensures Valid() && c == old(nextFree) && nextFree == c + 1 && c !in old(dirs) && dirs == old(dirs)[c := []]
      ensures parent < c < MEDIA
    {
      hide Sound, ItemOk, Directories, CreateDirEntry, Tight;
      ghost var d0 := Now();
      DirectoryFacts(d0, ents, dirs, parent);
      c := StartChain();
      var dot := CreateDirEntry(".", ATTR_DIR, c, 0);
      var dotDot := CreateDirEntry("..", ATTR_DIR, parent, 0);
      WriteBytes(c, c, 0, dot);
      WriteBytes(c, c, 32, dotDot);
      DirectoryMade(d0, Now(), ents, dirs, c, parent);
      TightMade(d0.chains, dirs, c);
      ents := ents[c := [dot, dotDot]];
      dirs := dirs[c := []];
    }

    /** add_directory (build_disk.py:97-108), when it fits. */
    method AddDirectory(parent: nat, name: string) returns (c: nat)
      requires Valid() && parent in dirs && Encodable(name)
      requires nextFree + 1 + Extra(parent, |dirs[parent]|) <= fat.Length
      modifies this`nextFree, this`clusterData, this`chains, this`home, this`content, this`ents, this`dirs, fat
      ensures Valid() && c == old(nextFree) && c !in old(dirs) && parent < c
      ensures dirs == old(dirs)[c := []][parent := old(dirs[parent]) + [DirItem(name, c)]]
      ensures nextFree == old(nextFree) + 1 + Extra(parent, old(|dirs[parent]|))
    {
      hide Sound, Directories, ItemEntry, Tight, Extra;
      c := NewDirectory(parent);
      ghost var it := DirItem(name, c);
      EntryOfDir(name, c);
      AddItem(parent, it, CreateDirEntry(name, ATTR_DIR, c, 0));
    }

    /** The boot sector (build_disk.py:137-165). */
    method BootSector() returns (b: array<byte>)
      requires ValidLayout(totalSectors)
      ensures fresh(b) && b.Length == SECTOR && BootFields(b[..], totalSectors) && BootRest(b[..])
    {
      b := new byte[SECTOR](_ => 0);
      LeadFields(b);
      CommonFields(b);
      LegacyFields(b);
      ExtendedFields(b);
      VolumeFields(b);
      hide BootFields;
      FieldsRead(b[..], totalSectors);
    }

    /** Jump and OEM name (build_disk.py:138-139). */
    method LeadFields(b: array<byte>)
      requires b.Length == SECTOR
      modifies b
      ensures forall k | 11 <= k < SECTOR :: b[k] == old(b[k])
      ensures b[..3] == [0xEB, 0x58, 0x90] && b[3..11] == Ascii("MSWIN4.1")
    {
      PutBytes(b, 0, [0xEB, 0x58, 0x90]);
      PutBytes(b, 3, Ascii("MSWIN4.1"));
    }

    /** The fields that say how the volume is laid out (build_disk.py:140-143, 151). */
    method CommonFields(b: array<byte>)
      requires b.Length == SECTOR
      modifies b
      ensures forall k | 0 <= k < SECTOR && !(11 <= k < 17) && !(32 <= k < 36) :: b[k] == old(b[k])
      ensures b[11..13] == Le16(SECTOR) && b[13] == 1 && b[14..16] == Le16(RESERVED) && b[16] == NUM_FATS
      ensures b[32..36] == Le32(totalSectors)
    {
      PutBytes(b, 11, Le16(SECTOR));
      b[13] := 1;
      PutBytes(b, 14, Le16(RESERVED));
      b[16] := NUM_FATS;
      PutBytes(b, 32, Le32(totalSectors));
    }

    /** The fields of older FAT versions and of the drive (build_disk.py:144-150). */
    method LegacyFields(b: array<byte>)
      requires b.Length == SECTOR
      modifies b
      ensures forall k | 0 <= k < SECTOR && !(17 <= k < 32) :: b[k] == old(b[k])
      ensures b[17..21] == Zeros(4) && b[21] == 0xF8 && b[22..24] == Zeros(2)
      ensures b[24..26] == Le16(63) && b[26..28] == Le16(255) && b[28..32] == Zeros(4)
    {
      PutBytes(b, 17, Le16(0));
      PutBytes(b, 19, Le16(0));
      b[21] := 0xF8;
      PutBytes(b, 22, Le16(0));
      PutBytes(b, 24, Le16(63));
      PutBytes(b, 26, Le16(255));
      PutBytes(b, 28, Le32(0));
    }

    /** The layout fields of FAT32 (build_disk.py:154-159). */
    method ExtendedFields(b: array<byte>)
      requires b.Length == SECTOR
      modifies b
      ensures forall k | 0 <= k < SECTOR && !(36 <= k < 52) :: b[k] == old(b[k])
      ensures b[36..40] == Le32(SectorsPerFat(totalSectors)) && b[40..44] == Zeros(4) && b[44..48] == Le32(ROOT)
      ensures b[48..50] == Le16(1) && b[50..52] == Le16(6)
    {
      PutBytes(b, 36, Le32(SectorsPerFat(totalSectors)));
      PutBytes(b, 40, Le16(0));
      PutBytes(b, 42, Le16(0));
      PutBytes(b, 44, Le32(ROOT));
      PutBytes(b, 48, Le16(1));
      PutBytes(b, 50, Le16(6));
    }

    /** Drive, serial number, label, type and signature (build_disk.py:160-165). */
    method VolumeFields(b: array<byte>)
      requires b.Length == SECTOR
      modifies b
      ensures forall k | 0 <= k < 510 && !(64 <= k < 90 && k != 65) :: b[k] == old(b[k])
      ensures b[64] == 0x80 && b[66] == 0x29 && b[67..71] == Le32(0x12345678) && b[71..82] == Ascii("XENITHRAESP")
      ensures b[82..90] == Ascii("FAT32   ") && b[510] == 0x55 && b[511] == 0xAA
    {
      b[64] := 0x80;
      b[66] := 0x29;
      PutBytes(b, 67, Le32(0x12345678));
      PutBytes(b, 71, Ascii("XENITHRAESP"));
      PutBytes(b, 82, Ascii("FAT32   "));
      PutBytes(b, 510, [0x55, 0xAA]);
    }

    /** The FSInfo sector (build_disk.py:170-176). */
    method FsInfoSector(free: nat) returns (b: array<byte>)
      ensures fresh(b) && b.Length == SECTOR && InfoFields(b[..], free, nextFree)
    {
      b := new byte[SECTOR](_ => 0);
      PutBytes(b, 0, Ascii("RRaA"));
      PutBytes(b, 484, Ascii("rrAa"));
      PutBytes(b, 488, Le32(free));
      PutBytes(b, 492, Le32(nextFree));
      PutBytes(b, 510, [0x55, 0xAA]);
    }

    /** The bytes of a FAT (build_disk.py:183-186), with the guard that drops entries past
        the end of the region. */
    method FatBytes() returns (b: array<byte>)
      requires ValidLayout(totalSectors) && fat.Length == TotalClusters(totalSectors) + 2
      ensures fresh(b) && IsFat(b[..], fat[..], SectorsPerFat(totalSectors))
    {
      FatHasRoom(totalSectors);
      b := new byte[SectorsPerFat(totalSectors) * SECTOR](_ => 0);
      for i := 0 to fat.Length
        invariant forall k | 0 <= k < b.Length :: b[k] == FatByte(fat[..], i, k)
      {
        if i * 4 + 4 <= b.Length {
          ghost var before := b[..];
          PutBytes(b, i * 4, Le32(fat[i] % 0x1000_0000));
          NextEntry(before, b[..], fat[..], i);
        }
      }
    }

    /** The data clusters in use (build_disk.py:192-196). */
    method DataBytes() returns (out: seq<byte>)
      requires 2 <= nextFree
      ensures out == DataArea(clusterData, nextFree)
    {
      out := [];
      for c := 2 to nextFree
        invariant out == DataArea(clusterData, c)
      {
        if c in clusterData {
          out := out + clusterData[c];
        } else {
          out := out + Zeros(SECTOR);
        }
      }
    }

    lemma DiskShape()
      requires Valid()
      ensures ValidLayout(totalSectors) && fat.Length == TotalClusters(totalSectors) + 2 && 2 <= nextFree
          && Sized(clusterData)
    {
      hide Directories;
      DataSized(Now());
    }

    /** build_disk (build_disk.py:131-202): the bytes written. Writing the free count of
        the FSInfo sector fails when the next free cluster is past the number of clusters,
        since the count is then negative. */
    method BuildDisk() returns (ok: bool, img: seq<byte>)
      requires Valid()
      ensures ok <==> nextFree <= TotalClusters(totalSectors)
      ensures ok ==> ImageOf(img, Now(), totalSectors)
      ensures ok ==> HeadOf(img, TotalClusters(totalSectors) - nextFree, nextFree)
    {
      hide Valid, ImageOf, BootFields, BootRest, InfoFields, HeadOf, IsFat, DataArea, Sized, ValidLayout, TotalClusters;
      DiskShape();
      if nextFree > TotalClusters(totalSectors) {
        return false, [];
      }
      var boot := BootSector();
      var info := FsInfoSector(TotalClusters(totalSectors) - nextFree);
      var f := FatBytes();
      var area := DataBytes();
      ok := true;
      img := WriteParts(boot[..], info[..], f[..], area, totalSectors, Now());
    }
  }

  lemma FieldsRead(b: seq<byte>, total: nat)
    requires |b| == SECTOR && ValidLayout(total)
    requires b[11..13] == Le16(SECTOR) && b[13] == 1 && b[14..16] == Le16(RESERVED) && b[16] == NUM_FATS
    requires b[32..36] == Le32(total) && b[36..40] == Le32(SectorsPerFat(total)) && b[44..48] == Le32(ROOT)
    requires b[510] == 0x55 && b[511] == 0xAA
    ensures BootFields(b, total)
  {
    Le16Reads(SECTOR, b, 11);
    Le16Reads(RESERVED, b, 14);
    Le32At(total, b, 32);
    Le32At(SectorsPerFat(total), b, 36);
    Le32At(ROOT, b, 44);
  }

  /** The writes to the file, padded to the size of the disk (build_disk.py:168-202). */
  method WriteParts(boot: seq<byte>, info: seq<byte>, f: seq<byte>, area: seq<byte>, total: nat, ghost d: Disk)
    returns (img: seq<byte>)
    requires ValidLayout(total) && Sized(d.data) && |d.fat| == TotalClusters(total) + 2
        && 2 <= d.next <= TotalClusters(total)
    requires BootFields(boot, total) && BootRest(boot) && InfoFields(info, TotalClusters(total) - d.next, d.next)
    requires IsFat(f, d.fat, SectorsPerFat(total)) && area == DataArea(d.data, d.next)
    ensures ImageOf(img, d, total) && HeadOf(img, TotalClusters(total) - d.next, d.next)
  {
    assert |boot| == SECTOR && |info| == SECTOR;
    hide ImageOf, BootFields, BootRest, InfoFields, HeadOf, DataArea;
    DataAreaAt(d.data, d.next, 2);
    img := boot + info + Zeros((RESERVED - 2) * SECTOR) + f + f + area;
    FatLength(f, d.fat, total);
    var written := |img|;
    var target := total * SECTOR;
    if written < target {
      img := img + Zeros(target - written);
    }
    hide IsFat;
    Assembled(boot, info, f, d, total, img);
    HeadIs(boot, info, img, TotalClusters(total) - d.next, d.next);
  }
}

/** Any sequence of calls to add_directory and add_file, and what a reader finds afterwards
    (scripts/build_disk.py:97-113, 204-240). */
module Fat32Calls {
  import opened Basics
  import opened Fat32Reader
  import opened DirEntries
  import opened Fat32Dirs
  import opened Fat32Chains
  import opened Fat32Layout
  import opened Fat32Builder
  import opened Fat32RoundTrip
  import opened Fat32EndToEnd

  /** Directories are numbered in the order they are made; the root is number 0. */
  datatype Call = FileCall(dir: nat, name: string, data: seq<byte>) | DirCall(dir: nat, name: string)

  datatype Child = FileChild(name: string, data: seq<byte>) | DirChild(name: string, number: nat)

  function DirCount(calls: seq<Call>): (n: nat)
    ensures n > 0
  {
    if calls == [] then 1
    else DirCount(calls[..|calls| - 1]) + if calls[|calls| - 1].DirCall? then 1 else 0
  }

  /** Each call is on a directory that has been made, with a name and a size that an entry can
      hold. */
  ghost predicate Proper(calls: seq<Call>) {
    forall i {:trigger calls[i]} | 0 <= i < |calls| ::
      && calls[i].dir < DirCount(calls[..i]) && Encodable(calls[i].name)
      && (calls[i].FileCall? ==> |calls[i].data| < 0x1_0000_0000)
  }

  /** What the calls put into directory k, in order. */
  function Children(calls: seq<Call>, k: nat): seq<Child> {
    if calls == [] then []
    else
      var before, c := calls[..|calls| - 1], calls[|calls| - 1];
      Children(before, k) +
      (if c.dir != k then [] else if c.FileCall? then [FileChild(c.name, c.data)]
       else [DirChild(c.name, DirCount(before))])
  }

  /** The tree that the calls describe. */
  function Tree(calls: seq<Call>, k: nat): seq<Node>
    decreases DirCount(calls) - k, 1, 0
  {
    if k < DirCount(calls) then TreeNodes(calls, Children(calls, k), k) else []
  }

  function TreeNodes(calls: seq<Call>, children: seq<Child>, k: nat): seq<Node>
    requires k < DirCount(calls)
    decreases DirCount(calls) - k, 0, |children|
  {
    if children == [] then []
    else
      [match children[0]
       case FileChild(name, data) => File(NameBytes(name), data)
       case DirChild(name, n) => Dir(NameBytes(name), if k < n then Tree(calls, n) else [])]
      + TreeNodes(calls, children[1..], k)
  }

  /** The next free cluster after the calls. */
  function Used(calls: seq<Call>): nat {
    if calls == [] then 3
    else
      var before, c := calls[..|calls| - 1], calls[|calls| - 1];
      Used(before) + (if c.FileCall? then ClustersFor(|c.data|) else 1)
      + Extra(if c.dir == 0 then ROOT else ROOT + 1, |Children(before, c.dir)|)
  }

  lemma {:induction false} UsedGrows(calls: seq<Call>, i: nat)
    requires i <= |calls|
    ensures Used(calls[..i]) <= Used(calls)
  {
    if i < |calls| {
      assert calls[..|calls| - 1][..i] == calls[..i];
      UsedGrows(calls[..|calls| - 1], i);
    } else {
      assert calls[..i] == calls;
    }
  }

  // ---------------------------------------------------------------- numbers and clusters

  /** Item it of a directory is the child x, where hs gives the cluster of each directory. */
  predicate Stands(hs: seq<nat>, it: Item, x: Child) {
    match x
    case FileChild(name, data) => it.FileItem? && it.name == name && it.data == data
    case DirChild(name, n) => it.DirItem? && it.name == name && n < |hs| && it.cluster == hs[n]
  }

  ghost predicate AllStand(hs: seq<nat>, items: seq<Item>, xs: seq<Child>) {
    |items| == |xs| && forall i {:trigger items[i]} {:trigger xs[i]} | 0 <= i < |xs| :: Stands(hs, items[i], xs[i])
  }

  ghost predicate DirStands(dirs: map<nat, seq<Item>>, hs: seq<nat>, calls: seq<Call>, k: nat)
    requires k < |hs|
  {
    hs[k] in dirs && AllStand(hs, dirs[hs[k]], Children(calls, k))
  }

  /** Directory number k is the one at cluster hs[k]. */
  ghost predicate Numbered(dirs: map<nat, seq<Item>>, hs: seq<nat>, calls: seq<Call>) {
    && |hs| == DirCount(calls) && hs[0] == ROOT
    && (forall i, j | 0 <= i < j < |hs| :: hs[i] < hs[j])
    && forall k: nat {:trigger DirStands(dirs, hs, calls, k)} | k < |hs| :: DirStands(dirs, hs, calls, k)
  }

  lemma {:induction false} SameTree(dirs: map<nat, seq<Item>>, hs: seq<nat>, calls: seq<Call>, k: nat, limit: nat)
    requires Numbered(dirs, hs, calls) && k < |hs| && hs[|hs| - 1] < limit
    ensures TreeOf(dirs, hs[k], limit) == Tree(calls, k)
    decreases |hs| - k, 1, 0
  {
    assert DirStands(dirs, hs, calls, k);
    assert hs[k] <= hs[|hs| - 1];
    SameNodes(dirs, hs, calls, dirs[hs[k]], Children(calls, k), k, limit);
  }

  lemma {:induction false} SameNodes(dirs: map<nat, seq<Item>>, hs: seq<nat>, calls: seq<Call>, items: seq<Item>,
                                     xs: seq<Child>, k: nat, limit: nat)
    requires Numbered(dirs, hs, calls) && k < |hs| && hs[|hs| - 1] < limit && hs[k] < limit && AllStand(hs, items, xs)
    ensures ItemNodes(dirs, items, hs[k], limit) == TreeNodes(calls, xs, k)
    decreases |hs| - k, 0, |xs|
  {
    if xs != [] {
      assert Stands(hs, items[0], xs[0]);
      if xs[0].DirChild? && k < xs[0].number {
        SameTree(dirs, hs, calls, xs[0].number, limit);
      }
      assert AllStand(hs, items[1..], xs[1..]);
      SameNodes(dirs, hs, calls, items[1..], xs[1..], k, limit);
    }
  }

  // ---------------------------------------------------------------- one more call

  lemma ChildrenPush(calls: seq<Call>, c: Call, k: nat)
    ensures Children(calls + [c], k) == Children(calls, k)
      + (if c.dir != k then [] else if c.FileCall? then [FileChild(c.name, c.data)]
         else [DirChild(c.name, DirCount(calls))])
    ensures DirCount(calls + [c]) == DirCount(calls) + if c.DirCall? then 1 else 0
    ensures Used(calls + [c]) == Used(calls) + (if c.FileCall? then ClustersFor(|c.data|) else 1)
              + Extra(if c.dir == 0 then ROOT else ROOT + 1, |Children(calls, c.dir)|)
  {
    assert (calls + [c])[..|calls + [c]| - 1] == calls;
  }

  /** A call numbers below the directories that exist. */
  lemma {:induction false} ChildrenBelow(calls: seq<Call>, k: nat)
    requires Proper(calls) && k >= DirCount(calls)
    ensures Children(calls, k) == []
  {
    if calls != [] {
      var before := calls[..|calls| - 1];
      assert Proper(before) by {
        forall i {:trigger before[i]} | 0 <= i < |before|
          ensures before[i].dir < DirCount(before[..i]) && Encodable(before[i].name)
            && (before[i].FileCall? ==> |before[i].data| < 0x1_0000_0000)
        {
          assert before[i] == calls[i] && before[..i] == calls[..i];
        }
      }
      ChildrenBelow(before, k);
      assert calls[|calls| - 1].dir < DirCount(before);
    }
  }

  lemma StandPush(hs: seq<nat>, hs': seq<nat>, items: seq<Item>, xs: seq<Child>, it: Item, x: Child)
    requires AllStand(hs, items, xs) && hs <= hs' && Stands(hs', it, x)
    ensures AllStand(hs', items + [it], xs + [x]) && AllStand(hs', items, xs)
  {
    forall i {:trigger items[i]} | 0 <= i < |xs| ensures Stands(hs', items[i], xs[i]) {
      assert Stands(hs, items[i], xs[i]);
    }
  }

  lemma FileNumbered(dirs: map<nat, seq<Item>>, hs: seq<nat>, calls: seq<Call>, c: Call, it: Item)
    requires Numbered(dirs, hs, calls) && c.FileCall? && c.dir < |hs| && Stands(hs, it, FileChild(c.name, c.data))
    requires hs[c.dir] in dirs
    ensures Numbered(dirs[hs[c.dir] := dirs[hs[c.dir]] + [it]], hs, calls + [c])
  {
    var dirs' := dirs[hs[c.dir] := dirs[hs[c.dir]] + [it]];
    hide AllStand;
    ChildrenPush(calls, c, 0);
    forall k: nat | k < |hs| ensures DirStands(dirs', hs, calls + [c], k) {
      assert DirStands(dirs, hs, calls, k);
      ChildrenPush(calls, c, k);
      StandPush(hs, hs, dirs[hs[k]], Children(calls, k), it, FileChild(c.name, c.data));
      assert k != c.dir ==> hs[k] != hs[c.dir];
    }
  }

  lemma DirStandsPush(dirs: map<nat, seq<Item>>, hs: seq<nat>, calls: seq<Call>, c: Call, made: nat, k: nat)
    requires Numbered(dirs, hs, calls) && c.DirCall? && c.dir < |hs| && k < |hs| && hs[c.dir] in dirs && made !in dirs
    ensures DirStands(dirs[made := []][hs[c.dir] := dirs[hs[c.dir]] + [DirItem(c.name, made)]], hs + [made],
                      calls + [c], k)
  {
    hide AllStand, Children, DirCount;
    assert DirStands(dirs, hs, calls, k);
    assert k != c.dir ==> hs[k] != hs[c.dir];
    assert (hs + [made])[k] == hs[k] && (hs + [made])[|hs|] == made && |hs| == DirCount(calls);
    ChildrenPush(calls, c, k);
    StandPush(hs, hs + [made], dirs[hs[k]], Children(calls, k), DirItem(c.name, made), DirChild(c.name, |hs|));
    assert Children(calls, k) + [] == Children(calls, k);
  }

  lemma NewStands(dirs: map<nat, seq<Item>>, hs: seq<nat>, calls: seq<Call>, c: Call, made: nat)
    requires Proper(calls) && c.DirCall? && c.dir < |hs| == DirCount(calls) && made in dirs && dirs[made] == []
    ensures DirStands(dirs, hs + [made], calls + [c], |hs|)
  {
    ChildrenPush(calls, c, |hs|);
    ChildrenBelow(calls, |hs|);
  }

  lemma DirNumbered(dirs: map<nat, seq<Item>>, hs: seq<nat>, calls: seq<Call>, c: Call, made: nat)
    requires Numbered(dirs, hs, calls) && Proper(calls) && c.DirCall? && c.dir < |hs| && hs[c.dir] in dirs
    requires made !in dirs && hs[|hs| - 1] < made
    ensures Numbered(dirs[made := []][hs[c.dir] := dirs[hs[c.dir]] + [DirItem(c.name, made)]], hs + [made], calls + [c])
  {
    hide DirStands, Proper, DirCount, Children;
    var dirs' := dirs[made := []][hs[c.dir] := dirs[hs[c.dir]] + [DirItem(c.name, made)]];
    ChildrenPush(calls, c, 0);
    NewStands(dirs', hs, calls, c, made);
    forall k: nat | k < |hs + [made]| ensures DirStands(dirs', hs + [made], calls + [c], k) {
      if k < |hs| {
        DirStandsPush(dirs, hs, calls, c, made, k);
      }
    }
  }

  // ---------------------------------------------------------------- the names shown

  /** A tree as a reader shows it, with names as text. */
  datatype Entry = ShownFile(name: string, data: seq<byte>) | ShownDir(name: string, entries: seq<Entry>)

  function Text(b: seq<byte>): string {
    if |b| == 11 && forall i | 0 <= i < |b| :: b[i] < 128 then ShownName(b) else ""
  }

  function Shown(nodes: seq<Node>): (es: seq<Entry>)
    decreases nodes
  {
    if nodes == [] then []
    else
      [match nodes[0]
       case File(name, data) => ShownFile(Text(name), data)
       case Dir(name, children) => ShownDir(Text(name), Shown(children))]
      + Shown(nodes[1..])
  }

  /** Directory k as the calls describe it, with their names in upper case. */
  function Named(calls: seq<Call>, k: nat): seq<Entry>
    decreases DirCount(calls) - k, 1, 0
  {
    if k < DirCount(calls) then NamedAll(calls, Children(calls, k), k) else []
  }

  function NamedAll(calls: seq<Call>, children: seq<Child>, k: nat): seq<Entry>
    requires k < DirCount(calls)
    decreases DirCount(calls) - k, 0, |children|
  {
    if children == [] then []
    else
      [match children[0]
       case FileChild(name, data) => ShownFile(UpperAll(name), data)
       case DirChild(name, n) => ShownDir(UpperAll(name), if k < n then Named(calls, n) else [])]
      + NamedAll(calls, children[1..], k)
  }

  ghost predicate All83(calls: seq<Call>) {
    forall c | c in calls :: Is83(c.name)
  }

  lemma {:induction false} Children83(calls: seq<Call>, k: nat)
    requires All83(calls)
    ensures forall x | x in Children(calls, k) :: Is83(x.name)
  {
    if calls != [] {
      Children83(calls[..|calls| - 1], k);
      assert calls[|calls| - 1] in calls;
      hide Is83;
    }
  }

  lemma TextOf(name: string)
    requires Is83(name)
    ensures Text(NameBytes(name)) == UpperAll(name)
  {
    NameRoundTrip(BeforeDot(name), AfterDot(name));
  }

  /** With valid 8.3 names the reader shows the names of the calls. */
  lemma {:induction false} ShownAsNamed(calls: seq<Call>, k: nat)
    requires All83(calls)
    ensures Shown(Tree(calls, k)) == Named(calls, k)
    decreases DirCount(calls) - k, 1, 0
  {
    if k < DirCount(calls) {
      Children83(calls, k);
      ShownNodes(calls, Children(calls, k), k);
    }
  }

  lemma {:induction false} ShownNodes(calls: seq<Call>, xs: seq<Child>, k: nat)
    requires All83(calls) && k < DirCount(calls) && forall x | x in xs :: Is83(x.name)
    ensures Shown(TreeNodes(calls, xs, k)) == NamedAll(calls, xs, k)
    decreases DirCount(calls) - k, 0, |xs|
  {
    hide Is83, Text, NameBytes, DirCount, All83, Children;
    if xs != [] {
      TextOf(xs[0].name);
      if xs[0].DirChild? && k < xs[0].number {
        ShownAsNamed(calls, xs[0].number);
      }
      ShownNodes(calls, xs[1..], k);
    }
  }

  // ---------------------------------------------------------------- the whole run

  lemma ProperPrefix(calls: seq<Call>, i: nat)
    requires Proper(calls) && i <= |calls|
    ensures Proper(calls[..i])
  {
    var done := calls[..i];
    forall j {:trigger done[j]} | 0 <= j < |done|
      ensures done[j].dir < DirCount(done[..j]) && Encodable(done[j].name)
          && (done[j].FileCall? ==> |done[j].data| < 0x1_0000_0000)
    {
      assert done[j] == calls[j] && done[..j] == calls[..j];
    }
  }

  /** Only the root has no dot entries. */
  lemma SameExtra(dirs: map<nat, seq<Item>>, hs: seq<nat>, calls: seq<Call>, k: nat)
    requires Numbered(dirs, hs, calls) && k < |hs|
    ensures hs[k] in dirs && Extra(if k == 0 then ROOT else ROOT + 1, |Children(calls, k)|) ==
        Extra(hs[k], |dirs[hs[k]]|)
  {
    assert DirStands(dirs, hs, calls, k);
    assert k != 0 ==> hs[k] > ROOT;
  }

  lemma CallProper(calls: seq<Call>, i: nat)
    requires Proper(calls) && i < |calls|
    ensures var c := calls[i];
      && c.dir < DirCount(calls[..i]) && Encodable(c.name) && (c.FileCall? ==> |c.data| < 0x1_0000_0000)
      && calls[..i + 1] == calls[..i] + [c]
  {
  }

  /** What one call needs and takes. */
  lemma CallFits(dirs: map<nat, seq<Item>>, hs: seq<nat>, calls: seq<Call>, i: nat)
    requires Proper(calls) && i < |calls| && Numbered(dirs, hs, calls[..i])
    ensures var c := calls[i];
      && c.dir < |hs| && hs[c.dir] in dirs && Encodable(c.name) && (c.FileCall? ==> |c.data| < 0x1_0000_0000)
      && calls[..i + 1] == calls[..i] + [c] && Proper(calls[..i])
      && Used(calls[..i + 1]) <= Used(calls)
      && Used(calls[..i + 1]) == Used(calls[..i]) + (if c.FileCall? then ClustersFor(|c.data|) else 1)
           + Extra(hs[c.dir], |dirs[hs[c.dir]]|)
  {
    hide DirStands, Proper, Extra, Used, DirCount, Children, Encodable, ClustersFor;
    CallProper(calls, i);
    SameExtra(dirs, hs, calls[..i], calls[i].dir);
    UsedGrows(calls, i + 1);
    ProperPrefix(calls, i);
    ChildrenPush(calls[..i], calls[i], 0);
  }

  method PerformFile(b: Builder, hs: seq<nat>, ghost calls: seq<Call>, i: nat, c: Call)
    requires b.Valid() && Proper(calls) && i < |calls| && c == calls[i] && c.FileCall?
        && Numbered(b.dirs, hs, calls[..i])
    requires b.nextFree == Used(calls[..i]) && Used(calls) <= b.fat.Length
    modifies b`nextFree, b`clusterData, b`chains, b`home, b`content, b`ents, b`dirs, b.fat
    ensures b.Valid() && Numbered(b.dirs, hs, calls[..i + 1]) && b.nextFree == Used(calls[..i + 1])
        && b.nextFree >= old(b.nextFree)
  {
    hide Numbered, Proper, Extra, Used, DirCount;
    CallFits(b.dirs, hs, calls, i);
    ghost var dirs0, first := b.dirs, if c.data == [] then 0 else b.nextFree;
    b.AddFile(hs[c.dir], c.name, c.data);
    FileNumbered(dirs0, hs, calls[..i], c, FileItem(c.name, c.data, first));
  }

  method PerformDir(b: Builder, hs: seq<nat>, ghost calls: seq<Call>, i: nat, c: Call) returns (made: nat)
    requires b.Valid() && Proper(calls) && i < |calls| && c == calls[i] && c.DirCall?
        && Numbered(b.dirs, hs, calls[..i])
    requires b.nextFree == Used(calls[..i]) && Used(calls) <= b.fat.Length && |hs| > 0 && hs[|hs| - 1] < b.nextFree
    modifies b`nextFree, b`clusterData, b`chains, b`home, b`content, b`ents, b`dirs, b.fat
    ensures b.Valid() && Numbered(b.dirs, hs + [made], calls[..i + 1]) && b.nextFree == Used(calls[..i + 1])
        && made < b.nextFree
  {
    hide Numbered, Proper, Extra, Used, DirCount;
    CallFits(b.dirs, hs, calls, i);
    ghost var dirs0 := b.dirs;
    made := b.AddDirectory(hs[c.dir], c.name);
    DirNumbered(dirs0, hs, calls[..i], c, made);
  }

  lemma NoCalls()
    ensures Numbered(map[ROOT := []], [ROOT], []) && Used([]) == 3
  {
    assert DirStands(map[ROOT := []], [ROOT], [], 0);
  }

  lemma ReadsAsCalled(b: Builder, hs: seq<nat>, calls: seq<Call>, img: seq<byte>, fuel: nat)
    requires b.Valid() && ImageOf(img, b.Now(), b.totalSectors) && fuel >= b.nextFree
    requires Numbered(b.dirs, hs, calls) && |hs| > 0 && hs[|hs| - 1] < b.nextFree
    ensures |img| == b.totalSectors * SECTOR >= SECTOR && ReadVolume(img, fuel) == Tree(calls, 0)
  {
    BuiltDiskReadsBack(b, img, fuel);
    SameTree(b.dirs, hs, calls, 0, b.nextFree);
  }

  /** All calls, one after the other. */
  method PerformAll(b: Builder, calls: seq<Call>) returns (hs: seq<nat>)
    requires b.Valid() && b.dirs == map[ROOT := []] && b.nextFree == 3 && Proper(calls) && Used(calls) <= b.fat.Length
    modifies b`nextFree, b`clusterData, b`chains, b`home, b`content, b`ents, b`dirs, b.fat
    ensures b.Valid() && |hs| > 0 && Numbered(b.dirs, hs, calls) && b.nextFree == Used(calls)
        && hs[|hs| - 1] < b.nextFree
  {
    hide Proper, Numbered, Used, DirCount;
    NoCalls();
    hs := [ROOT];
    for i := 0 to |calls|
      invariant b.Valid() && |hs| > 0 && hs[|hs| - 1] < b.nextFree
      invariant Numbered(b.dirs, hs, calls[..i]) && b.nextFree == Used(calls[..i])
    {
      if calls[i].FileCall? {
        PerformFile(b, hs, calls, i, calls[i]);
      } else {
        var made := PerformDir(b, hs, calls, i, calls[i]);
        hs := hs + [made];
      }
    }
    assert calls[..|calls|] == calls;
  }

  /** For every sequence of calls that fits, build_disk fails exactly when there are more
      clusters in use than the free count in FSInfo allows for; and when it does not, a
      reader of the image finds exactly the tree that the calls describe, in their order. */
  method Build(total: nat, calls: seq<Call>) returns (ok: bool, img: seq<byte>)
    requires ValidLayout(total) && Proper(calls) && Used(calls) <= TotalClusters(total) + 2
    ensures ok <==> Used(calls) <= TotalClusters(total)
    ensures ok ==> |img| == total * SECTOR >= SECTOR
    ensures ok ==> forall fuel: nat {:trigger ReadVolume(img, fuel)} | fuel >= Used(calls) ::
        ReadVolume(img, fuel) == Tree(calls, 0)
    // with valid 8.3 names no short name of the builder is left in the statement
    ensures ok && All83(calls) ==>
              forall fuel: nat {:trigger ReadVolume(img, fuel)} | fuel >= Used(calls) ::
                Shown(ReadVolume(img, fuel)) == Named(calls, 0)
  {
    hide All83, Shown, Named;
    if All83(calls) {
      ShownAsNamed(calls, 0);
    }
    hide Tree, Proper, Numbered, Used, ImageOf, ReadVolume;
    var b := new Builder(total);
    var hs := PerformAll(b, calls);
    ok, img := b.BuildDisk();
    if ok {
      ReadsAsCalled(b, hs, calls, img, b.nextFree);
      forall fuel: nat | fuel >= Used(calls) ensures ReadVolume(img, fuel) == Tree(calls, 0) {
        ReadsAsCalled(b, hs, calls, img, fuel);
      }
    }
  }

  /** A disk of 35 sectors has one cluster, the root's: even without any call the build fails,
      since the next free cluster is 3 and the free count would be negative. */
  lemma SmallestDiskFails()
    ensures ValidLayout(35) && TotalClusters(35) == 1 && Used([]) == 3
    ensures Proper([]) && TotalClusters(35) < Used([]) <= TotalClusters(35) + 2
  {
    assert SectorsPerFat(35) == 1;
  }
}

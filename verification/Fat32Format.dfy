/** Bytes and little-endian numbers. */
module Bytes {
  import opened Basics

  function Zeros(n: nat): (z: seq<byte>)
    ensures |z| == n && forall i | 0 <= i < n :: z[i] == 0
  {
    seq(n, _ => 0)
  }

  /** Byte k of x, the lowest one first. */
  function LeByte(x: nat, k: nat): byte {
    if k == 0 then x % 256 else if k == 1 then x / 0x100 % 256 else if k == 2 then x / 0x1_0000 % 256
    else x / 0x100_0000 % 256
  }

  /** struct.pack('<H', x) and struct.pack('<I', x), for numbers that fit. */
  function Le16(x: nat): seq<byte> {
    [LeByte(x, 0), LeByte(x, 1)]
  }

  function Le32(x: nat): seq<byte> {
    [LeByte(x, 0), LeByte(x, 1), LeByte(x, 2), LeByte(x, 3)]
  }

  function U16(b: seq<byte>, at: nat): nat
    requires at + 2 <= |b|
  {
    b[at] as nat + b[at + 1] as nat * 0x100
  }

  function U32(b: seq<byte>, at: nat): nat
    requires at + 4 <= |b|
  {
    b[at] as nat + b[at + 1] as nat * 0x100 + b[at + 2] as nat * 0x1_0000 + b[at + 3] as nat * 0x100_0000
  }

  lemma Le16Reads(x: nat, b: seq<byte>, at: nat)
    requires x < 0x1_0000 && at + 2 <= |b| && b[at] == LeByte(x, 0) && b[at + 1] == LeByte(x, 1)
    ensures U16(b, at) == x
  {
  }

  lemma Le32Reads(x: nat, b: seq<byte>, at: nat)
    requires x < 0x1_0000_0000 && at + 4 <= |b|
    requires forall k | 0 <= k < 4 :: b[at + k] == LeByte(x, k)
    ensures U32(b, at) == x
  {
    assert b[at + 0] == LeByte(x, 0) && b[at + 1] == LeByte(x, 1) && b[at + 2] == LeByte(x, 2)
        && b[at + 3] == LeByte(x, 3);
    assert x / 0x1_0000 == x / 0x100 / 0x100 && x / 0x100_0000 == x / 0x1_0000 / 0x100;
  }

  lemma Le32At(x: nat, b: seq<byte>, at: nat)
    requires x < 0x1_0000_0000 && at + 4 <= |b| && b[at..at + 4] == Le32(x)
    ensures U32(b, at) == x
  {
    forall k | 0 <= k < 4 ensures b[at + k] == LeByte(x, k) {
      assert b[at..at + 4][k] == Le32(x)[k];
    }
    Le32Reads(x, b, at);
  }
}

/** A reader for FAT32 volumes, after the Microsoft FAT32 File System Specification 1.03:
    "Boot Sector and BPB", "FAT Data Structure" and "FAT Directory Structure". It knows
    nothing of the builder. */
module Fat32Reader {
  import opened Basics
  import opened Bytes

  const EOC_MIN := 0x0FFF_FFF8

  /** The fields of the boot sector that locate the rest of the volume. */
  datatype Bpb = Bpb(bytesPerSector: nat, sectorsPerCluster: nat, reserved: nat, numFats: nat,
                     totalSectors: nat, fatSize: nat, rootCluster: nat)

  function ParseBpb(img: seq<byte>): Bpb
    requires |img| >= 512
  {
    Bpb(U16(img, 11), img[13], U16(img, 14), img[16], U32(img, 32), U32(img, 36), U32(img, 44))
  }

  function FirstDataSector(b: Bpb): nat {
    b.reserved + b.numFats * b.fatSize
  }

  /** Number of data clusters, which bounds every chain. */
  function CountOfClusters(b: Bpb): nat {
    if b.sectorsPerCluster == 0 || b.totalSectors < FirstDataSector(b) then 0
    else (b.totalSectors - FirstDataSector(b)) / b.sectorsPerCluster
  }

  function Slice(img: seq<byte>, at: nat, n: nat): seq<byte> {
    if at + n <= |img| then img[at..at + n] else []
  }

  function ClusterOffset(b: Bpb, c: nat): nat {
    if c < 2 then 0 else ((c - 2) * b.sectorsPerCluster + FirstDataSector(b)) * b.bytesPerSector
  }

  function ReadCluster(img: seq<byte>, b: Bpb, c: nat): seq<byte> {
    Slice(img, ClusterOffset(b, c), b.sectorsPerCluster * b.bytesPerSector)
  }

  /** The 28 bits of the FAT entry of cluster c; 0 when it lies outside the image. */
  function FatEntry(img: seq<byte>, b: Bpb, c: nat): nat {
    var at := b.reserved * b.bytesPerSector + c * 4;
    if at + 4 <= |img| then U32(img, at) % 0x1000_0000 else 0
  }

  /** The clusters of a chain, at most fuel of them. */
  function Chain(img: seq<byte>, b: Bpb, c: nat, fuel: nat): seq<nat>
    decreases fuel
  {
    if fuel == 0 || c < 2 then []
    else if FatEntry(img, b, c) >= EOC_MIN then [c]
    else [c] + Chain(img, b, FatEntry(img, b, c), fuel - 1)
  }

  function Concat(img: seq<byte>, b: Bpb, ch: seq<nat>): seq<byte> {
    if ch == [] then [] else ReadCluster(img, b, ch[0]) + Concat(img, b, ch[1..])
  }

  function ReadChain(img: seq<byte>, b: Bpb, c: nat): seq<byte> {
    Concat(img, b, Chain(img, b, c, CountOfClusters(b)))
  }

  /** The directory entries from position at on: 0xE5 marks a free entry, 0x00 a free one
      with none in use behind it. */
  function Entries(bytes: seq<byte>, at: nat): seq<seq<byte>>
    decreases |bytes| - at
  {
    if at + 32 > |bytes| || bytes[at] == 0 then []
    else if bytes[at] == 0xE5 then Entries(bytes, at + 32)
    else [bytes[at..at + 32]] + Entries(bytes, at + 32)
  }

  predicate IsEntry(e: seq<byte>) {
    |e| == 32
  }

  function NameOf(e: seq<byte>): seq<byte>
    requires IsEntry(e)
  {
    e[..11]
  }

  predicate IsDirectory(e: seq<byte>)
    requires IsEntry(e)
  {
    e[11] / 0x10 % 2 == 1
  }

  function FirstClusterOf(e: seq<byte>): nat
    requires IsEntry(e)
  {
    U16(e, 20) * 0x1_0000 + U16(e, 26)
  }

  function SizeOf(e: seq<byte>): nat
    requires IsEntry(e)
  {
    U32(e, 28)
  }

  datatype Node = File(name: seq<byte>, data: seq<byte>) | Dir(name: seq<byte>, children: seq<Node>)

  /** The bytes of a file: its chain cut to its size. */
  function ReadFile(img: seq<byte>, b: Bpb, e: seq<byte>): seq<byte>
    requires IsEntry(e)
  {
    var bytes := ReadChain(img, b, FirstClusterOf(e));
    if SizeOf(e) <= |bytes| then bytes[..SizeOf(e)] else bytes
  }

  /** The children of the directory that starts at cluster c, to a depth of fuel. The first
      two entries of a directory other than the root are the dot entries. */
  function ReadDir(img: seq<byte>, b: Bpb, c: nat, fuel: nat): seq<Node>
    decreases fuel, 2, 0
  {
    var es := Entries(ReadChain(img, b, c), 0);
    if c == b.rootCluster then ReadEntries(img, b, es, fuel)
    else if |es| < 2 then []
    else ReadEntries(img, b, es[2..], fuel)
  }

  function ReadEntries(img: seq<byte>, b: Bpb, es: seq<seq<byte>>, fuel: nat): seq<Node>
    decreases fuel, 1, |es|
  {
    if es == [] then []
    else if !IsEntry(es[0]) then ReadEntries(img, b, es[1..], fuel)
    else [ReadEntry(img, b, es[0], fuel)] + ReadEntries(img, b, es[1..], fuel)
  }

  function ReadEntry(img: seq<byte>, b: Bpb, e: seq<byte>, fuel: nat): Node
    requires IsEntry(e)
    decreases fuel, 0, 0
  {
    if !IsDirectory(e) then File(NameOf(e), ReadFile(img, b, e))
    else Dir(NameOf(e), if fuel == 0 then [] else ReadDir(img, b, FirstClusterOf(e), fuel - 1))
  }

  /** The whole tree of a volume. */
  function ReadVolume(img: seq<byte>, fuel: nat): seq<Node>
    requires |img| >= 512
  {
    var b := ParseBpb(img);
    ReadDir(img, b, b.rootCluster, fuel)
  }
}

/** Directory entries as the builder writes them (scripts/build_disk.py:82-95). */
module DirEntries {
  import opened Basics
  import opened Bytes
  import opened Fat32Reader

  /** str.upper on ASCII. */
  function Upper(c: char): char {
    if 'a' <= c <= 'z' then c - 'a' + 'A' else c
  }

  function UpperAll(s: string): (u: string)
    ensures |u| == |s|
  {
    seq(|s|, i requires 0 <= i < |s| => Upper(s[i]))
  }

  /** The characters up to the first dot, and those after it. */
  function BeforeDot(s: string): string {
    if s == "" || s[0] == '.' then "" else [s[0]] + BeforeDot(s[1..])
  }

  function AfterDot(s: string): string {
    if s == "" then "" else if s[0] == '.' then s[1..] else AfterDot(s[1..])
  }

  /** s[:n].ljust(n). */
  function Fit(s: string, n: nat): (r: string)
    ensures |r| == n
  {
    seq(n, i requires 0 <= i < n => if i < |s| then s[i] else ' ')
  }

  /** The eleven characters of the name: the parts before the first and the second dot, cut
      or padded to 8 and 3. */
  function Name11(name: string): (n: string)
    ensures |n| == 11
  {
    var u := UpperAll(name);
    Fit(BeforeDot(u), 8) + Fit(BeforeDot(AfterDot(u)), 3)
  }

  /** Names that encode to ASCII and hold no NUL. */
  predicate Encodable(name: string) {
    forall i | 0 <= i < |name| :: 0 < name[i] as int < 128
  }

  function Encode(s: string): (b: seq<byte>)
    requires Encodable(s)
    ensures |b| == |s|
  {
    seq(|s|, i requires 0 <= i < |s| => s[i] as int)
  }

  lemma {:induction false} PartsEncodable(s: string)
    requires Encodable(s)
    ensures Encodable(BeforeDot(s)) && Encodable(AfterDot(s))
  {
    if s != "" && s[0] != '.' {
      assert Encodable(s[1..]);
      PartsEncodable(s[1..]);
    }
  }

  lemma Name11Encodable(name: string)
    requires Encodable(name)
    ensures Encodable(Name11(name))
  {
    var u := UpperAll(name);
    assert Encodable(u);
    PartsEncodable(u);
    PartsEncodable(AfterDot(u));
  }

  function ShortName(name: string): (b: seq<byte>)
    requires Encodable(name)
    ensures |b| == 11 && forall i | 0 <= i < 11 :: 0 < b[i] < 128
  {
    Name11Encodable(name);
    Encode(Name11(name))
  }

  /** create_dir_entry (build_disk.py:82-95). */
  function CreateDirEntry(name: string, attr: byte, cluster: nat, size: nat): (e: seq<byte>)
    requires Encodable(name)
    ensures |e| == 32
  {
    ShortName(name) + [attr] + Zeros(8) + Le16(cluster / 0x1_0000 % 0x1_0000) + Zeros(4) + Le16(cluster % 0x1_0000)
      + Le32(size)
  }

  /** The reader finds in an entry what was put in. */
  lemma EntryReads(name: string, attr: byte, cluster: nat, size: nat)
    requires Encodable(name) && cluster < 0x1000_0000 && size < 0x1_0000_0000
    ensures var e := CreateDirEntry(name, attr, cluster, size);
      && IsEntry(e) && NameOf(e) == ShortName(name) && e[11] == attr
      && FirstClusterOf(e) == cluster && SizeOf(e) == size && e[0] != 0 && e[0] != 0xE5
  {
    var e := CreateDirEntry(name, attr, cluster, size);
    Le16Reads(cluster / 0x1_0000 % 0x1_0000, e, 20);
    Le16Reads(cluster % 0x1_0000, e, 26);
    Le32Reads(size, e, 28);
  }

  // ---------------------------------------------------------------- 8.3 names

  /** A base of one to eight characters, and an extension of up to three. */
  predicate Valid83(base: string, ext: string) {
    && 1 <= |base| <= 8 && |ext| <= 3
    && (forall i | 0 <= i < |base| :: ' ' < base[i] <= '~' && base[i] != '.')
    && (forall i | 0 <= i < |ext| :: ' ' < ext[i] <= '~' && ext[i] != '.')
  }

  function Dotted(base: string, ext: string): string {
    if ext == "" then base else base + "." + ext
  }

  /** s without the spaces at its end. */
  function Trimmed(s: string): string {
    if s != "" && s[|s| - 1] == ' ' then Trimmed(s[..|s| - 1]) else s
  }

  function Decode(b: seq<byte>): string
    requires forall i | 0 <= i < |b| :: b[i] < 128
  {
    seq(|b|, i requires 0 <= i < |b| => b[i] as char)
  }

  /** The name a reader shows for an entry. */
  function ShownName(b: seq<byte>): string
    requires |b| == 11 && forall i | 0 <= i < |b| :: b[i] < 128
  {
    var s := Decode(b);
    Dotted(Trimmed(s[..8]), Trimmed(s[8..]))
  }

  lemma {:induction false} TrimmedFit(s: string, n: nat)
    requires |s| <= n && (s == "" || s[|s| - 1] != ' ')
    ensures Trimmed(Fit(s, n)) == s
    decreases n
  {
    if |s| == n {
      assert Fit(s, n) == s;
    } else {
      assert Fit(s, n)[..n - 1] == Fit(s, n - 1);
      TrimmedFit(s, n - 1);
    }
  }

  lemma {:induction false} SplitAtDot(base: string, rest: string)
    requires forall i | 0 <= i < |base| :: base[i] != '.'
    ensures BeforeDot(base) == base && AfterDot(base) == ""
    ensures BeforeDot(base + "." + rest) == base && AfterDot(base + "." + rest) == rest
  {
    if base == "" {
      assert base + "." + rest == "." + rest;
    } else {
      SplitAtDot(base[1..], rest);
      assert (base + "." + rest)[1..] == base[1..] + "." + rest;
    }
  }

  lemma Name11Parts(base: string, ext: string)
    requires Valid83(base, ext)
    ensures Name11(Dotted(base, ext)) == Fit(UpperAll(base), 8) + Fit(UpperAll(ext), 3)
    ensures UpperAll(Dotted(base, ext)) == Dotted(UpperAll(base), UpperAll(ext))
  {
    var ub, ue := UpperAll(base), UpperAll(ext);
    assert UpperAll(Dotted(base, ext)) == Dotted(ub, ue);
    SplitAtDot(ub, ue);
    SplitAtDot(ue, "");
  }

  /** A name with at most one dot, and parts that fit. */
  predicate Is83(name: string) {
    Valid83(BeforeDot(name), AfterDot(name)) && name == Dotted(BeforeDot(name), AfterDot(name))
  }

  /** Valid 8.3 names come back as they were given, in upper case. */
  lemma NameRoundTrip(base: string, ext: string)
    requires Valid83(base, ext)
    ensures Encodable(Dotted(base, ext))
    ensures ShownName(ShortName(Dotted(base, ext))) == UpperAll(Dotted(base, ext))
  {
    var name := Dotted(base, ext);
    var ub, ue := UpperAll(base), UpperAll(ext);
    assert Encodable(name);
    Name11Parts(base, ext);
    var s := Decode(ShortName(name));
    assert s == Name11(name);
    assert s[..8] == Fit(ub, 8) && s[8..] == Fit(ue, 3);
    TrimmedFit(ub, 8);
    TrimmedFit(ue, 3);
  }
}

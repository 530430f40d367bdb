/**
 FAT volumes (src/fat.c): the geometry that FatMount derives from a boot sector, the table of
 cluster links as one flat array, and GetNextCluster, which reads it sector by sector.
 */
module FatTable {
  import opened Arith
  import opened Bytes
  import opened Common
  import opened Env
  import opened SectorCache
  import opened SectorIo

  datatype Kind = Fat12 | Fat16 | Fat32

  // ---------------------------------------------------------------- the table

  /** Cluster numbers from here on end a chain. */
  function EndCluster(k: Kind): nat {
    match k case Fat12 => 0xFF7 case Fat16 => 0xFFF7 case Fat32 => 0x0FFF_FFF7
  }

  /** Of the values that 12, 16 or 28 bits hold, the last nine: the mark of a bad cluster and eight end marks. */
  lemma LastNineEnd()
    ensures EndCluster(Fat12) + 9 == 0x1000 && EndCluster(Fat16) + 9 == 0x1_0000 && EndCluster(Fat32) + 9 == 0x1000_0000
  {
  }

  /** Where the entry of cluster c begins in the table. */
  function Offset(k: Kind, c: nat): nat {
    match k case Fat12 => c + c / 2 case Fat16 => c * 2 case Fat32 => c * 4
  }

  function Width(k: Kind): nat {
    if k == Fat32 then 4 else 2
  }

  /** The first value that an entry cannot have. */
  function Bound(k: Kind): nat {
    match k case Fat12 => 0x1000 case Fat16 => 0x1_0000 case Fat32 => 0x1_0000_0000
  }

  predicate InTable(k: Kind, table: seq<byte>, c: nat) {
    Offset(k, c) + Width(k) <= |table|
  }

  /** The entry of cluster c. */
  function Entry(k: Kind, table: seq<byte>, c: nat): (e: nat)
    requires InTable(k, table, c)
    ensures e < Bound(k)
  {
    var o := Offset(k, c);
    var word: nat := table[o] as int + table[o + 1] as int * 0x100;
    match k
    case Fat12 => if c % 2 == 1 then word / 16 else word % 0x1000
    case Fat16 => word
    case Fat32 => word + table[o + 2] as int * 0x1_0000 + table[o + 3] as int * 0x100_0000
  }

  /** How many entries a group of whole bytes holds: two of 12 bits, one of any other kind. */
  function Group(k: Kind): nat {
    if k == Fat12 then 2 else 1
  }

  /** The bytes of a group: two 12-bit entries share three bytes, others are little-endian. */
  function Coded(k: Kind, a: nat, b: nat): (r: seq<byte>)
    requires a < Bound(k) && b < Bound(k)
    ensures |r| == if k == Fat32 then 4 else if k == Fat16 then 2 else 3
  {
    match k
    case Fat12 =>
      assert a / 256 + b % 16 * 16 < 256 && b / 16 < 256;
      [a % 256, a / 256 + b % 16 * 16, b / 16]
    case Fat16 =>
      assert a / 256 < 256;
      [a % 256, a / 256]
    case Fat32 =>
      assert a / 0x100_0000 < 256;
      [a % 256, a / 0x100 % 256, a / 0x1_0000 % 256, a / 0x100_0000]
  }

  predicate Encodable(k: Kind, entries: seq<nat>) {
    forall i :: 0 <= i < |entries| ==> entries[i] < Bound(k)
  }

  /** A table holding these entries. */
  function Packed(k: Kind, entries: seq<nat>): seq<byte>
    requires Encodable(k, entries)
  {
    if entries == [] then [] else
    Coded(k, entries[0], if |entries| > 1 then entries[1] else 0)
    + (if |entries| > Group(k) then Packed(k, entries[Group(k)..]) else [])
  }

  /** Every entry of a packed table reads back. */
  lemma {:induction false} PackedReadsBack(k: Kind, entries: seq<nat>, table: seq<byte>, c: nat)
    requires Encodable(k, entries) && Packed(k, entries) <= table && c < |entries|
    ensures InTable(k, table, c) && Entry(k, table, c) == entries[c]
    decreases c
  {
    hide Coded, Entry, InTable, Packed, Bound;
    var g := Group(k);
    var n := FirstGroup(k, entries, table);
    if c >= g {
      PackedReadsBack(k, entries[g..], table[n..], c - g);
      ShiftedEntry(k, table, c);
    }
  }

  /** The bytes of the first group and of the others. */
  lemma FirstGroup(k: Kind, entries: seq<nat>, table: seq<byte>) returns (n: nat)
    requires Encodable(k, entries) && Packed(k, entries) <= table && entries != []
    ensures n == (if k == Fat12 then 3 else Width(k)) && n <= |table|
    ensures forall c :: 0 <= c < Group(k) && c < |entries| ==> InTable(k, table, c) && Entry(k, table, c) == entries[c]
    ensures |entries| > Group(k) ==> Encodable(k, entries[Group(k)..]) && Packed(k, entries[Group(k)..]) <= table[n..]
  {
    hide Coded, Entry, InTable, Offset, Bound;
    var a, b := entries[0], if |entries| > 1 then entries[1] else 0;
    ZeroFits(k);
    var code := Coded(k, a, b);
    n := |code|;
    assert code <= table;
    FirstGroupReadsBack(k, a, b, table);
    if |entries| > Group(k) {
      LaterEntries(code, Packed(k, entries[Group(k)..]), table);
    }
  }

  lemma ZeroFits(k: Kind)
    ensures 0 < Bound(k)
  {
  }

  lemma FirstGroupReadsBack(k: Kind, a: nat, b: nat, table: seq<byte>)
    requires a < Bound(k) && b < Bound(k) && Coded(k, a, b) <= table
    ensures InTable(k, table, 0) && Entry(k, table, 0) == a
    ensures k == Fat12 ==> InTable(k, table, 1) && Entry(k, table, 1) == b
  {
    var code := Coded(k, a, b);
    assert table[0] == code[0] && table[1] == code[1];
    match k
    case Fat12 =>
      assert table[2] == code[2];
      TwelveBits(a, b);
    case Fat16 =>
    case Fat32 =>
      assert table[2] == code[2] && table[3] == code[3];
      assert a / 0x100_0000 == a / 0x1_0000 / 256 && a / 0x1_0000 == a / 0x100 / 256;
  }

  lemma TwelveBits(a: nat, b: nat)
    requires a < 0x1000 && b < 0x1000
    ensures (a % 256 + (a / 256 + b % 16 * 16) * 0x100) % 0x1000 == a
    ensures (a / 256 + b % 16 * 16 + b / 16 * 0x100) / 16 == b
  {
    assert a % 256 + (a / 256 + b % 16 * 16) * 0x100 == a + b % 16 * 0x1000;
  }

  lemma ShiftedEntry(k: Kind, table: seq<byte>, c: nat)
    requires var n := if k == Fat12 then 3 else Width(k);
      Group(k) <= c && n <= |table| && InTable(k, table[n..], c - Group(k))
    ensures var n := if k == Fat12 then 3 else Width(k);
      InTable(k, table, c) && Entry(k, table, c) == Entry(k, table[n..], c - Group(k))
  {
    var n := if k == Fat12 then 3 else Width(k);
    assert Offset(k, c) == Offset(k, c - Group(k)) + n;
  }

  lemma LaterEntries(code: seq<byte>, rest: seq<byte>, table: seq<byte>)
    requires code + rest <= table
    ensures rest <= table[|code|..]
  {
    assert table[|code|..][..|rest|] == table[..|code + rest|][|code|..];
  }

  /** Bits 28 to 31 of a FAT32 entry are reserved and not part of the link. */
  function Link(k: Kind, entry: nat): nat {
    if k == Fat32 then entry % 0x1000_0000 else entry
  }

  /** The reader does not mask them: what it takes for the link is the link iff they are zero. */
  lemma UnmaskedEntryIsLinkIff(k: Kind, table: seq<byte>, c: nat)
    requires InTable(k, table, c)
    ensures Entry(k, table, c) == Link(k, Entry(k, table, c)) <==> k != Fat32 || table[Offset(k, c) + 3] < 16
    ensures k == Fat32 && table[Offset(k, c) + 3] >= 16 ==> Entry(k, table, c) >= EndCluster(k)
  {
  }

  // ---------------------------------------------------------------- geometry

  /** The boot sector fields that FatMount looks at. */
  datatype Bpb = Bpb(
    bytsPerSec: u16, secPerClus: byte, rsvdSecCnt: u16, numFATs: byte, rootEntCnt: u16,
    totSec16: u16, media: byte, fatSz16: u16, totSec32: u32, fatSz32: u32, fsVer: u16)
  {
    function RootDirSectors(): nat
      requires bytsPerSec != 0
    {
      (rootEntCnt * 32 + bytsPerSec - 1) / bytsPerSec
    }

    function FatSize(): nat { if fatSz16 != 0 then fatSz16 else fatSz32 }

    function TotalSectors(): nat { if totSec16 != 0 then totSec16 else totSec32 }

    function TableSectors(): nat { numFATs * FatSize() }

    /** The sectors before the data area. */
    function Overhead(): nat
      requires bytsPerSec != 0
    {
      rsvdSecCnt + TableSectors() + RootDirSectors()
    }
  }

  datatype Volume = Volume(kind: Kind, bps: nat, secPerClus: nat, nDataSectors: nat, fatStart: nat, rootDirStart: nat,
                           dataStart: nat)
  {
    function BytesPerCluster(): nat { bps * secPerClus }

    function ClusterCount(): nat {
      if secPerClus == 0 then 0 else nDataSectors / secPerClus
    }

    /** What every mounted volume is known to satisfy. */
    predicate WellFormed() {
      && bps in {512, 1024, 2048, 4096}
      && secPerClus in {1, 2, 4, 8, 16, 32, 64, 128}
      && BytesPerCluster() in {512, 1024, 2048, 4096, 8192, 16384, 32768}
      && fatStart < 0x1_0000 && rootDirStart < 0x1_0000_0000 && dataStart < 0x1_0000_0000
    }
  }

  /** FatMount's checks and arithmetic, which is modulo 2^32. */
  function Mount(b: Bpb, driveBytesPerSector: nat): Option<Volume> {
    if b.bytsPerSec !in {512, 1024, 2048, 4096} || b.secPerClus !in {1, 2, 4, 8, 16, 32, 64, 128}
       || b.secPerClus * b.bytsPerSec > 32768 || b.rsvdSecCnt == 0 || b.bytsPerSec != driveBytesPerSector then None
    else if b.rsvdSecCnt > 1 && b.rootEntCnt != 0 then None
    else
      var fat32 := b.rootEntCnt == 0;
      if (b.totSec16 == 0 && b.totSec32 == 0) || (b.totSec16 != 0 && fat32) || (b.media < 0xF8 && b.media != 0xF0)
         || ((b.fatSz16 == 0) != fat32) then None
      else if fat32 && (b.fatSz32 == 0 || b.fsVer != 0) then None
      else
        var fats := b.TableSectors() % 0x1_0000_0000;
        var dataSec := (b.TotalSectors() - (b.rsvdSecCnt + fats + b.RootDirSectors())) % 0x1_0000_0000;
        var count := dataSec / b.secPerClus;
        if count >= 65525 && b.fsVer != 0 then None
        else
          var rootDirStart := (b.rsvdSecCnt + fats) % 0x1_0000_0000;
          Some(Volume(if count < 4085 then Fat12 else if count < 65525 then Fat16 else Fat32,
                      b.bytsPerSec, b.secPerClus, dataSec, b.rsvdSecCnt, rootDirStart,
                      (rootDirStart + b.RootDirSectors()) % 0x1_0000_0000))
  }

  /** The fewest whole sectors that hold the root directory's entries, of 32 bytes each. */
  predicate HoldsRoot(b: Bpb, sectors: nat) {
    && 32 * b.rootEntCnt <= sectors * b.bytsPerSec
    && (0 < sectors ==> (sectors - 1) * b.bytsPerSec < 32 * b.rootEntCnt)
  }

  /** What the copies of the table need; FAT32 has no root directory area, and its own field for a copy's size. */
  function Tables(b: Bpb): nat {
    b.numFATs * (if b.rootEntCnt == 0 then b.fatSz32 else b.fatSz16)
  }

  /** The same sector number, cut to 32 bits. */
  predicate SameSector(a: nat, b: nat) { a % 0x1_0000_0000 == b % 0x1_0000_0000 }

  /**
   The areas of a mounted volume lie one behind the other: the reserved sectors, the tables, the root
   directory, and the data, which has what is left.
   */
  lemma MountLaysOut(b: Bpb, driveBytesPerSector: nat, rootSectors: nat)
    requires Mount(b, driveBytesPerSector).Some? && HoldsRoot(b, rootSectors)
    ensures var v := Mount(b, driveBytesPerSector).value;
      && v.bps == b.bytsPerSec && v.secPerClus == b.secPerClus
      && v.fatStart == b.rsvdSecCnt
      && v.rootDirStart < 0x1_0000_0000 && SameSector(v.rootDirStart, v.fatStart + Tables(b))
      && v.dataStart < 0x1_0000_0000 && SameSector(v.dataStart, v.rootDirStart + rootSectors)
      && v.nDataSectors < 0x1_0000_0000
      && SameSector(v.nDataSectors + v.dataStart, if b.totSec16 != 0 then b.totSec16 else b.totSec32)
  {
    hide Mount, SameSector, HoldsRoot, Tables, Bpb.TableSectors, Bpb.RootDirSectors, Bpb.TotalSectors,
      Volume.WellFormed;
    MountedGeometry(b, driveBytesPerSector);
    MountedTables(b, driveBytesPerSector);
    RootSectorsAre(b, rootSectors);
    CutSum(b.rsvdSecCnt, b.TableSectors());
    CutSum(Mount(b, driveBytesPerSector).value.rootDirStart + rootSectors, 0);
    SectorsAddUp(b.rsvdSecCnt, b.TableSectors() % 0x1_0000_0000, rootSectors, b.TotalSectors());
    TotalIs(b);
  }

  lemma CutSum(a: nat, b: nat)
    ensures (a + b % 0x1_0000_0000) % 0x1_0000_0000 < 0x1_0000_0000
    ensures SameSector((a + b % 0x1_0000_0000) % 0x1_0000_0000, a + b)
  {
    Periodic(a + b, -(b / 0x1_0000_0000));
  }

  lemma TotalIs(b: Bpb)
    ensures b.TotalSectors() == if b.totSec16 != 0 then b.totSec16 else b.totSec32
  {
  }

  lemma MountedTables(b: Bpb, driveBytesPerSector: nat)
    requires Mount(b, driveBytesPerSector).Some?
    ensures var v := Mount(b, driveBytesPerSector).value;
      && v.bps == b.bytsPerSec && v.fatStart == b.rsvdSecCnt
      && v.rootDirStart == (b.rsvdSecCnt + b.TableSectors() % 0x1_0000_0000) % 0x1_0000_0000
      && b.TableSectors() == Tables(b)
  {
    hide Bpb.RootDirSectors, Bpb.TotalSectors;
  }

  lemma RootSectorsAre(b: Bpb, sectors: nat)
    requires b.bytsPerSec != 0 && HoldsRoot(b, sectors)
    ensures b.RootDirSectors() == sectors
  {
    LeastCeiling(32 * b.rootEntCnt, b.bytsPerSec, b.RootDirSectors(), sectors);
  }

  lemma LeastCeiling(x: nat, size: nat, n: nat, m: nat)
    requires 0 < size && n == (x + size - 1) / size
    requires x <= m * size && (0 < m ==> (m - 1) * size < x)
    ensures n == m
  {
    Division(x + size - 1, size);
    Distribute(size, n, 0);
    Distribute(size, m, 0);
    if m < n {
      MulOrder(size, m, n);
      assert false;
    } else if n < m {
      Distribute(size, m - 1, 0);
      MulOrder(size, n, m - 1);
      assert false;
    }
  }

  /** The data begins behind the areas before it and has what is left, all modulo 2^32. */
  lemma SectorsAddUp(r: nat, f: nat, d: nat, total: nat)
    ensures var start := ((r + f) % 0x1_0000_0000 + d) % 0x1_0000_0000;
      var rest := (total - (r + f + d)) % 0x1_0000_0000;
      SameSector(rest + start, total)
  {
    var x, y := (r + f) % 0x1_0000_0000 + d, total - (r + f + d);
    assert x % 0x1_0000_0000 + y % 0x1_0000_0000
        == total - 0x1_0000_0000 * ((r + f) / 0x1_0000_0000 + x / 0x1_0000_0000 + y / 0x1_0000_0000);
    Periodic(total, -((r + f) / 0x1_0000_0000 + x / 0x1_0000_0000 + y / 0x1_0000_0000));
  }

  /** What a boot sector must say to be taken for that of a FAT volume. */
  predicate IsFat(b: Bpb, driveBytesPerSector: nat) {
    && driveBytesPerSector == b.bytsPerSec && b.bytsPerSec in {512, 1024, 2048, 4096}
    && b.secPerClus in {1, 2, 4, 8, 16, 32, 64, 128} && b.secPerClus * b.bytsPerSec <= 0x8000
    && 1 <= b.rsvdSecCnt && (b.media == 0xF0 || 0xF8 <= b.media)
    && if b.rootEntCnt == 0 then
         b.totSec16 == 0 < b.totSec32 && b.fatSz16 == 0 < b.fatSz32 && b.fsVer == 0
       else
         b.rsvdSecCnt == 1 && (b.totSec16 != 0 || b.totSec32 != 0) && b.fatSz16 != 0
  }

  /** Exactly those are mounted, unless they have a version and so many clusters that they count as FAT32. */
  lemma MountsIff(b: Bpb, driveBytesPerSector: nat)
    ensures Mount(b, driveBytesPerSector).Some? <==>
              IsFat(b, driveBytesPerSector) && (b.fsVer == 0 || Clusters(b) < 65525)
  {
    hide Clusters;
    if IsFat(b, driveBytesPerSector) {
      ClustersCounted(b);
    }
  }

  /** Clusters in what the areas leave of the volume, on 32 bits. */
  function Clusters(b: Bpb): nat
    requires b.bytsPerSec != 0 && b.secPerClus != 0
  {
    (b.TotalSectors() - b.Overhead()) % 0x1_0000_0000 / b.secPerClus
  }

  lemma ClustersCounted(b: Bpb)
    requires b.bytsPerSec != 0 && b.secPerClus != 0
    ensures Clusters(b) == (b.TotalSectors() - (b.rsvdSecCnt + b.TableSectors() % 0x1_0000_0000 + b.RootDirSectors()))
                           % 0x1_0000_0000 / b.secPerClus
  {
    hide Bpb.TableSectors, Bpb.RootDirSectors, Bpb.TotalSectors;
    var (r, t, d, total) := (b.rsvdSecCnt, b.TableSectors(), b.RootDirSectors(), b.TotalSectors());
    Wraps(r, t, d, total);
    Wraps(0, 0, r + t + d, total);
    Periodic(total - (r + t + d), (r + t + d) / 0x1_0000_0000);
  }

  /**
   What mounting guarantees.  The clusters counted lie inside the volume exactly when the areas
   before them do, their size cut to 32 bits: FatMount does not check that, and its subtraction
   wraps when they do not.
   */
  lemma MountGuarantees(b: Bpb, driveBytesPerSector: nat)
    requires Mount(b, driveBytesPerSector).Some?
    ensures b.bytsPerSec != 0
    ensures var v, overhead := Mount(b, driveBytesPerSector).value, b.Overhead() % 0x1_0000_0000;
      && v.WellFormed() && v.bps == driveBytesPerSector && v.dataStart == overhead
      && (v.dataStart + v.ClusterCount() * v.secPerClus <= b.TotalSectors() <==> overhead <= b.TotalSectors())
      && (v.kind != Fat32 ==> v.ClusterCount() + 1 < EndCluster(v.kind))
      && (v.kind == Fat32 <==> v.ClusterCount() >= 65525) && (v.kind == Fat12 <==> v.ClusterCount() < 4085)
  {
    hide Bpb.TableSectors, Bpb.RootDirSectors, Volume.WellFormed, Bpb.TotalSectors, Volume.ClusterCount;
    MountedGeometry(b, driveBytesPerSector);
    Kinds(b, driveBytesPerSector);
    var v, overhead := Mount(b, driveBytesPerSector).value, b.Overhead() % 0x1_0000_0000;
    Wraps(b.rsvdSecCnt, b.TableSectors(), b.RootDirSectors(), b.TotalSectors());
    TotalFits(b);
    AreasFit(overhead, b.TotalSectors(), v.nDataSectors, b.secPerClus);
    CountOf(v);
  }

  /** The three ways in which the sum of the areas is cut to 32 bits agree. */
  lemma Wraps(r: nat, t: nat, d: nat, total: nat)
    ensures ((r + t % 0x1_0000_0000) % 0x1_0000_0000 + d) % 0x1_0000_0000 == (r + t + d) % 0x1_0000_0000
    ensures (total - (r + t % 0x1_0000_0000 + d)) % 0x1_0000_0000
              == (total - (r + t + d) % 0x1_0000_0000) % 0x1_0000_0000
  {
    var q := t / 0x1_0000_0000;
    var a, sum := r + t % 0x1_0000_0000, r + t + d;
    assert a + d == sum - 0x1_0000_0000 * q;
    Periodic(a + d, -(a / 0x1_0000_0000));
    Periodic(sum, -q);
    Periodic(total - sum, q);
    Periodic(total - sum, sum / 0x1_0000_0000);
  }

  lemma Periodic(x: int, q: int)
    ensures (x + 0x1_0000_0000 * q) % 0x1_0000_0000 == x % 0x1_0000_0000
  {
    assert x + 0x1_0000_0000 * q == 0x1_0000_0000 * (x / 0x1_0000_0000 + q) + x % 0x1_0000_0000;
  }

  lemma TotalFits(b: Bpb)
    ensures b.TotalSectors() < 0x1_0000_0000
  {
  }

  lemma CountOf(v: Volume)
    requires v.secPerClus != 0
    ensures v.ClusterCount() == v.nDataSectors / v.secPerClus
  {
  }

  lemma MountedGeometry(b: Bpb, driveBytesPerSector: nat)
    requires Mount(b, driveBytesPerSector).Some?
    ensures b.bytsPerSec != 0 && b.secPerClus in {1, 2, 4, 8, 16, 32, 64, 128}
    ensures var v, fats := Mount(b, driveBytesPerSector).value, b.TableSectors() % 0x1_0000_0000;
      && v.WellFormed() && v.bps == driveBytesPerSector && v.secPerClus == b.secPerClus
      && v.dataStart == ((b.rsvdSecCnt + fats) % 0x1_0000_0000 + b.RootDirSectors()) % 0x1_0000_0000
      && v.nDataSectors == (b.TotalSectors() - (b.rsvdSecCnt + fats + b.RootDirSectors())) % 0x1_0000_0000
  {
    hide Bpb.TableSectors, Bpb.RootDirSectors, Bpb.TotalSectors;
    ClusterSizes(b.bytsPerSec, b.secPerClus);
  }

  lemma Kinds(b: Bpb, driveBytesPerSector: nat)
    requires Mount(b, driveBytesPerSector).Some?
    ensures var v := Mount(b, driveBytesPerSector).value;
      && (v.kind != Fat32 ==> v.ClusterCount() + 1 < EndCluster(v.kind))
      && (v.kind == Fat32 <==> v.ClusterCount() >= 65525) && (v.kind == Fat12 <==> v.ClusterCount() < 4085)
  {
    hide Bpb.TableSectors, Bpb.RootDirSectors, Bpb.TotalSectors;
  }

  lemma AreasFit(overhead: u32, total: u32, data: nat, spc: nat)
    requires spc in {1, 2, 4, 8, 16, 32, 64, 128} && data == (total - overhead) % 0x1_0000_0000
    ensures overhead + data / spc * spc <= total <==> overhead <= total
  {
    Division(data, spc);
  }

  lemma ClusterSizes(bps: nat, spc: nat)
    requires bps in {512, 1024, 2048, 4096} && spc in {1, 2, 4, 8, 16, 32, 64, 128} && spc * bps <= 32768
    ensures bps * spc in {512, 1024, 2048, 4096, 8192, 16384, 32768}
  {
  }

  /** A boot sector that mounts although its tables alone are larger than the volume. */
  lemma OversizedTablesMount()
    ensures var b := Bpb(512, 1, 1, 2, 16, 100, 0xF8, 60, 0, 0, 0);
      b.Overhead() > b.TotalSectors() && Mount(b, 512).Some? && Mount(b, 512).value.ClusterCount() > 0xFFFF_0000
  {
  }

  // ---------------------------------------------------------------- GetNextCluster

  class FatVolume {
    const device: Device
    const v: Volume

    constructor (device: Device, v: Volume)
      requires device.Valid() && v.WellFormed() && v.bps == device.SectorSize() && v.fatStart <= device.nSectors
      ensures this.device == device && this.v == v && Valid()
    {
      this.device, this.v := device, v;
    }

    predicate Sound() {
      device.Sound() && v.WellFormed() && v.bps == device.SectorSize() && v.fatStart <= device.nSectors
    }

    ghost predicate Valid()
      reads device.cache, device.cache.items
    {
      Sound() && device.Valid()
    }

    /** The same link, all end marks being one. */
    predicate SameLink(a: nat, b: nat) {
      a == b || (a >= EndCluster(v.kind) && b >= EndCluster(v.kind))
    }

    /** The device from the first table on. */
    function Table(): (t: seq<byte>)
      requires Sound()
      ensures |t| == (device.nSectors - v.fatStart) * v.bps
    {
      device.Sectors(v.fatStart, device.nSectors - v.fatStart)
    }

    /** The successor of a cluster: its entry; anything that cannot be read counts as an end. */
    function Next(c: nat): (n: nat)
      requires Sound()
      ensures n < 0x1_0000_0000
    {
      if InTable(v.kind, Table(), c) then Entry(v.kind, Table(), c) else 0xFFFF_FFFF
    }

    /** A sector beyond the device is beyond the table. */
    lemma BeyondTable(sector: nat)
      requires Sound() && v.fatStart + sector >= device.nSectors
      ensures sector * v.bps >= |Table()|
    {
      FewerUnitsFit(v.bps, 0, device.nSectors - v.fatStart, sector, sector * v.bps);
    }

    /** The bytes of one sector of the table. */
    ghost predicate Loaded(sector: nat, bytes: seq<byte>)
      requires Sound()
    {
      sector * v.bps + v.bps <= |Table()| && bytes == Table()[sector * v.bps..sector * v.bps + v.bps]
    }

    lemma LoadsSector(sector: nat)
      requires Sound() && v.fatStart + sector < device.nSectors
      ensures Loaded(sector, device.Sectors(v.fatStart + sector, 1))
    {
      device.SectorsOfRun(v.fatStart, device.nSectors - v.fatStart, sector, 1);
      UnitsFit(v.bps, sector, 1);
    }

    /** One sector of the table; when nothing fails the read works iff the sector exists. */
    method ReadTableSector(sector: nat, buffer: array<byte>) returns (ok: bool)
      requires Valid() && buffer.Length == v.bps
      modifies buffer, device.cache, device.cache.items, device.env
      ensures Valid() && old(device.env.asked) <= device.env.asked
      ensures ok ==> Loaded(sector, buffer[..])
      ensures device.env.Smooth(old(device.env.asked), device.env.asked) ==>
                ok == (v.fatStart + sector < device.nSectors)
      ensures v.fatStart + sector >= device.nSectors ==> sector * v.bps >= |Table()|
    {
      assert 0 < v.bps <= 4096;
      hide Units, Table, Spliced, Loaded, Device.Sectors, Device.Valid, Device.Sound, Cache.Valid, Device.Coherent,
        SectorIo.Touched, Volume.WellFormed;
      assert buffer.Length == 1 * device.SectorSize();
      ok := device.Fill(v.fatStart + sector, 1, buffer);
      if v.fatStart + sector >= device.nSectors {
        BeyondTable(sector);
      } else if ok {
        LoadsSector(sector);
      }
    }

    /** Where GetNextCluster looks: the arithmetic is that of 32 bits. */
    function Position(cluster: nat): nat {
      Offset(v.kind, cluster) % 0x1_0000_0000
    }

    /** Entries of 16 and 32 bits are never split between sectors. */
    lemma OnlyFat12EntriesSplit(cluster: nat)
      requires v.WellFormed()
      ensures v.kind != Fat12 ==> Position(cluster) % v.bps + Width(v.kind) <= v.bps
    {
      hide Volume.WellFormed, Position, Offset;
      SectorSizes();
      PositionIsAligned(cluster);
      if v.kind == Fat16 {
        AlignedItem(Position(cluster), 2, Position(cluster) / 2, v.bps, v.bps / 2);
      } else if v.kind == Fat32 {
        AlignedItem(Position(cluster), 4, Position(cluster) / 4, v.bps, v.bps / 4);
      }
    }

    lemma PositionIsAligned(cluster: nat)
      ensures v.kind == Fat16 ==> Position(cluster) == 2 * (Position(cluster) / 2)
      ensures v.kind == Fat32 ==> Position(cluster) == 4 * (Position(cluster) / 4)
    {
      TwiceCut(cluster);
      FourTimesCut(cluster);
    }

    /** What is left of an even number, cut to 32 bits, is even; and so for multiples of 4. */
    lemma TwiceCut(m: nat)
      ensures 2 * m % 0x1_0000_0000 == 2 * (2 * m % 0x1_0000_0000 / 2)
    {
      var r := m % 0x8000_0000;
      assert 2 * m == 0x1_0000_0000 * (m / 0x8000_0000) + 2 * r;
      assert 2 * m % 0x1_0000_0000 == 2 * r;
    }

    lemma FourTimesCut(m: nat)
      ensures 4 * m % 0x1_0000_0000 == 4 * (4 * m % 0x1_0000_0000 / 4)
    {
      var r := m % 0x4000_0000;
      assert 4 * m == 0x1_0000_0000 * (m / 0x4000_0000) + 4 * r;
      assert 4 * m % 0x1_0000_0000 == 4 * r;
    }

    lemma SectorSizes()
      requires v.WellFormed()
      ensures 0 < v.bps == 2 * (v.bps / 2) == 4 * (v.bps / 4)
    {
      hide Volume.BytesPerCluster;
    }

    /** An entry that lies in one sector. */
    function EntryInSector(odd: bool, bytes: seq<byte>, ofs: nat): nat
      requires ofs + Width(v.kind) <= |bytes|
    {
      var word: nat := bytes[ofs] as int + bytes[ofs + 1] as int * 0x100;
      match v.kind
      case Fat12 => if odd then word / 16 else word % 0x1000
      case Fat16 => word
      case Fat32 => word + bytes[ofs + 2] as int * 0x1_0000 + bytes[ofs + 3] as int * 0x100_0000
    }

    lemma WholeEntry(cluster: nat, sector: nat, ofs: nat, bytes: seq<byte>)
      requires Sound() && Loaded(sector, bytes) && ofs + Width(v.kind) <= v.bps
      requires Offset(v.kind, cluster) == sector * v.bps + ofs
      ensures EntryInSector(cluster % 2 == 1, bytes, ofs) == Next(cluster)
    {
      hide Table;
    }

    /** A FAT12 entry in the last byte of one sector and the first byte of the next. */
    method SplitEntry(odd: bool, sector: nat, buffer: array<byte>, ghost cluster: nat) returns (res: nat)
      requires Valid() && v.kind == Fat12 && Loaded(sector, buffer[..])
      modifies buffer, device.cache, device.cache.items, device.env
      ensures Valid() && old(device.env.asked) <= device.env.asked && res < 0x1000
      ensures Offset(Fat12, cluster) == sector * v.bps + v.bps - 1 && odd == (cluster % 2 == 1) ==>
                res == Next(cluster)
                || (res == 0xFFF
                    && (device.env.Smooth(old(device.env.asked), device.env.asked) ==> Next(cluster) == 0xFFFF_FFFF))
    {
      assert 0 < v.bps;
      hide Table, Device.Sectors, Device.Valid, Device.Sound, Volume.WellFormed;
      ghost var t := Table();
      UnitsFit(v.bps, sector, 1);
      var word: nat := buffer[v.bps - 1];
      assert word == buffer[..][v.bps - 1] == t[sector * v.bps + v.bps - 1];
      var ok := ReadTableSector(sector + 1, buffer);
      if ok {
        assert buffer[..][0] == t[(sector + 1) * v.bps];
        word := word + buffer[0] as int * 0x100;
      } else {
        word := 0xFFFF;
      }
      res := if odd then word / 16 else word % 0x1000;
    }

    /** The sector of the table, and the byte in it, where the entry begins. */
    method Locate(cluster: nat) returns (sector: nat, ofs: nat)
      requires v.WellFormed() && cluster < 0x1_0000_0000
      ensures ofs < v.bps && (v.kind != Fat12 ==> ofs + Width(v.kind) <= v.bps)
      ensures cluster < EndCluster(v.kind) ==> Offset(v.kind, cluster) == sector * v.bps + ofs
    {
      OnlyFat12EntriesSplit(cluster);
      var at := Position(cluster);
      ofs, sector := at % v.bps, at / v.bps;
      Division(at, v.bps);
    }

    lemma EntryBeyond(cluster: nat, sector: nat, ofs: nat)
      requires Sound() && Offset(v.kind, cluster) == sector * v.bps + ofs && sector * v.bps >= |Table()|
      ensures Next(cluster) == 0xFFFF_FFFF
    {
    }

    /**
     GetNextCluster.  The result is the entry of the cluster in the table taken as one flat
     array, also where a 12-bit entry is split between two sectors; any failure reads as a
     value that ends the chain.
     */
    method GetNextCluster(cluster: nat) returns (res: nat)
      requires Valid() && cluster < 0x1_0000_0000
      modifies device.cache, device.cache.items, device.env
      ensures Valid() && old(device.env.asked) <= device.env.asked && res < 0x1_0000_0000
      ensures cluster < EndCluster(v.kind) ==> res == Next(cluster) || res >= EndCluster(v.kind)
      ensures cluster < EndCluster(v.kind) && device.env.Smooth(old(device.env.asked), device.env.asked) ==>
                SameLink(res, Next(cluster))
      ensures !device.env.answer(old(device.env.asked)) ==> res == 0xFFFF_FFFF
    {
      assert 0 < v.bps <= 4096;
      hide Table, Device.Sectors, Device.Valid, Device.Sound, Volume.WellFormed, Position, Next, Offset, InTable,
        Loaded;
      var sector, ofs := Locate(cluster);
      var ok := device.env.Malloc(v.bps);
      if !ok {
        return 0xFFFF_FFFF;
      }
      var buffer := new byte[v.bps](_ => 0);
      ok := ReadTableSector(sector, buffer);
      if !ok {
        if cluster < EndCluster(v.kind) && v.fatStart + sector >= device.nSectors {
          EntryBeyond(cluster, sector, ofs);
        }
        return 0xFFFF_FFFF;
      }
      if v.kind == Fat12 && ofs == v.bps - 1 {
        res := SplitEntry(cluster % 2 == 1, sector, buffer, cluster);
      } else {
        res := EntryInSector(cluster % 2 == 1, buffer[..], ofs);
        if cluster < EndCluster(v.kind) {
          WholeEntry(cluster, sector, ofs, buffer[..]);
        }
      }
    }
  }
}

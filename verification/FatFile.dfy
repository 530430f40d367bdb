/** Files on a FAT volume (src/fat.c): reading along a chain of clusters, and seeking. */
module FatFile {
  import opened Arith
  import opened Bytes
  import opened Common
  import opened Env
  import opened SectorCache
  import opened SectorIo
  import opened FatTable

  /**
   Reading `count` of n clusters of cs bytes, from byte o of the first, when `left` bytes are
   wanted and the last of the n clusters is needed: the end is the end of a cluster, or of
   what is wanted, inside the last one.
   */
  lemma Advance(cs: nat, i: nat, o: nat, n: nat, count: nat, left: nat) returns (len: nat, j: nat, r: nat)
    requires o < cs && 1 <= count <= n && 1 <= left && (n - 1) * cs < o + left
    ensures o < count * cs && len == (if left < count * cs - o then left else count * cs - o) && 1 <= len
    ensures i * cs + o + len == j * cs + r && r < cs
    ensures (len == left && count == n && j == i + n - 1) || (j == i + count && r == 0)
    ensures count < n ==> (n - count - 1) * cs < left - len
  {
    FewerUnitsFit(cs, 0, 1, count, count * cs);
    UnitsFit(cs, i, count);
    if left < count * cs - o {
      len := left;
      if count < n {
        FewerUnitsFit(cs, 0, count, n - 1, (n - 1) * cs);
        assert false;
      }
      UnitsFit(cs, n - 1, 1);
      UnitsFit(cs, i, n - 1);
      j, r := i + n - 1, o + left - (n - 1) * cs;
    } else {
      len, j, r := count * cs - o, i + count, 0;
      if count < n {
        UnitsFit(cs, n - count - 1, count);
      }
    }
  }

  lemma OneMore(s: seq<byte>, from: nat, len: nat)
    requires 0 < len && from + len <= |s|
    ensures s[from..from + len] == s[from..from + len - 1] + [s[from + len - 1]]
  {
  }

  datatype FileOp = Read(n: nat) | Seek(offset: int, whence: Whence)

  class FatFile {
    const volume: FatVolume
    /** DIR_FstClusHI:DIR_FstClusLO. */
    const first: nat
    /** DIR_FileSize. */
    const size: nat
    var cursor: nat
    var cluster: nat

    /** A file as _OpenFile sets it up. */
    constructor (volume: FatVolume, first: nat, size: nat)
      requires size < 0x1_0000_0000 && first < 0x1_0000_0000
      ensures this.volume == volume && this.first == first && this.size == size && cursor == 0 && cluster == first
    {
      this.volume, this.first, this.size := volume, first, size;
      cursor, cluster := 0, first;
    }

    /** The file is opened again. */
    method Open()
      requires Sound() && volume.device.Valid()
      modifies this
      ensures Valid() && cursor == 0 && OnChainAt(cluster, 0)
    {
      cursor, cluster := 0, first;
    }

    function ClusterSize(): nat { volume.v.BytesPerCluster() }

    function End(): nat { EndCluster(volume.v.kind) }

    /** The cluster k links after a given one. */
    function Nth(start: nat, k: nat): (c: nat)
      requires volume.Sound()
    {
      if k == 0 then start else volume.Next(Nth(start, k - 1))
    }

    /** Sectors of the n clusters from c on, when they are clusters of the data area. */
    predicate DataRun(c: nat, n: nat) {
      2 <= c && c - 2 + n <= volume.v.ClusterCount()
    }

    /** The data area as one sequence of bytes. */
    function Area(): (r: seq<byte>)
      requires volume.Sound() && AreaFits()
      ensures |r| == volume.v.ClusterCount() * volume.v.secPerClus * volume.v.bps
    {
      volume.device.Sectors(volume.v.dataStart, volume.v.ClusterCount() * volume.v.secPerClus)
    }

    predicate AreaFits() {
      && volume.v.dataStart + volume.v.ClusterCount() * volume.v.secPerClus <= volume.device.nSectors
      && volume.v.dataStart + volume.v.ClusterCount() * volume.v.secPerClus < 0x1_0000_0000
      && volume.v.ClusterCount() + 1 < End()
    }

    /** The file lies on the volume: every byte of it has a data cluster on the chain. */
    ghost predicate Sound() {
      && volume.Sound() && AreaFits()
      && size < 0x1_0000_0000 && first < 0x1_0000_0000
      && forall k {:trigger Nth(first, k)} :: 0 <= k && k * ClusterSize() < size ==> DataRun(Nth(first, k), 1)
    }

    ghost predicate Valid()
      reads this, volume.device.cache, volume.device.cache.items
    {
      Sound() && volume.Valid() && cursor <= size && cluster < 0x1_0000_0000
    }

    /** Nothing can be read any more without a rewind. */
    predicate Lost()
      reads this
    {
      cluster >= End()
    }

    /** The number of the cluster, within the file, that position p is in. */
    function IndexOf(p: nat): nat {
      if ClusterSize() == 0 then 0 else p / ClusterSize()
    }

    function WithinOf(p: nat): nat {
      if ClusterSize() == 0 then 0 else p % ClusterSize()
    }

    lemma Regular()
      requires volume.Sound()
      ensures volume.v.WellFormed() && 0 < ClusterSize()
    {
    }

    /** The parts of Sound, to be called where its body is hidden. */
    lemma Known()
      requires Sound()
      ensures volume.Sound() && AreaFits() && volume.v.WellFormed()
      ensures size < 0x1_0000_0000
      ensures 0 < ClusterSize() && volume.device.SectorSize() == volume.v.bps <= 4096
    {
    }

    lemma Position(p: nat)
      requires volume.v.WellFormed()
      ensures p == IndexOf(p) * ClusterSize() + WithinOf(p) && WithinOf(p) < ClusterSize()
    {
      Division(p, ClusterSize());
    }

    lemma AtPosition(p: nat, i: nat, o: nat)
      requires p == i * ClusterSize() + o && o < ClusterSize()
      ensures IndexOf(p) == i && WithinOf(p) == o
    {
      assert i * ClusterSize() == ClusterSize() * i;
      QuotientIs(p, ClusterSize(), i, o);
    }

    // -------------------------------------------------------------- content

    /** Byte r of the file's cluster k. */
    ghost function ByteOf(k: nat, r: nat): byte
      requires Sound() && r < ClusterSize() && k * ClusterSize() + r < size
    {
      var c := Nth(first, k);
      InArea(c, 1, r, 1);
      Area()[(c - 2) * ClusterSize() + r]
    }

    /** Byte p of the file. */
    ghost function ByteAt(p: nat): byte
      requires Sound() && p < size
    {
      Division(p, ClusterSize());
      ByteOf(p / ClusterSize(), p % ClusterSize())
    }

    /** The bytes of the file. */
    ghost function Content(): (r: seq<byte>)
      requires Sound()
      ensures |r| == size
    {
      seq(size, p requires 0 <= p < size => ByteAt(p))
    }

    /** Byte r of the k-th cluster of the data area, counted from the beginning of the drive. */
    function OnDisk(k: nat, r: nat): nat {
      (volume.device.startSector + volume.v.dataStart + k * volume.v.secPerClus) * volume.device.SectorSize() + r
    }

    /**
     Where byte p of the file is on the drive: in the cluster that is so many links behind the first,
     where cluster 2 is the first one of the data area.
     */
    lemma ByteOnDisk(p: nat)
      requires Sound() && p < size
      ensures 0 < ClusterSize() && 2 <= Nth(first, p / ClusterSize())
      ensures var at := OnDisk(Nth(first, p / ClusterSize()) - 2, p % ClusterSize());
        at < |volume.device.drive.disk| && Content()[p] == volume.device.drive.disk[at]
    {
      hide *;
      Known();
      var c, r := Nth(first, p / ClusterSize()), p % ClusterSize();
      ByteInArea(p);
      AreaOnDisk((c - 2) * ClusterSize() + r);
      PlaceOnDisk(volume.device.startSector + volume.v.dataStart, c - 2, r);
    }

    lemma ByteInArea(p: nat)
      requires Sound() && p < size
      ensures volume.Sound() && AreaFits() && 0 < ClusterSize() && 2 <= Nth(first, p / ClusterSize())
      ensures var x := (Nth(first, p / ClusterSize()) - 2) * ClusterSize() + p % ClusterSize();
        0 <= x < |Area()| && Content()[p] == Area()[x]
    {
      hide ByteOf, Sound, Area, DataRun, AreaFits, FatVolume.Sound, Volume.BytesPerCluster, Nth;
      Known();
      Division(p, ClusterSize());
      ByteOfCluster(p / ClusterSize(), p % ClusterSize());
    }

    lemma ByteOfCluster(k: nat, r: nat)
      requires Sound() && r < ClusterSize() && k * ClusterSize() + r < size
      ensures volume.Sound() && AreaFits() && 2 <= Nth(first, k)
      ensures var x := (Nth(first, k) - 2) * ClusterSize() + r; 0 <= x < |Area()| && ByteOf(k, r) == Area()[x]
    {
      hide *;
      ClusterOfFile(k);
      ByteInRun(k, Nth(first, k), 1, 0, r);
    }

    lemma ClusterOfFile(k: nat)
      requires Sound() && k * ClusterSize() < size
      ensures volume.Sound() && AreaFits() && 2 <= Nth(first, k) && RunAt(k, Nth(first, k), 1)
    {
      hide AreaFits, FatVolume.Sound, Volume.ClusterCount, FatVolume.Next, Nth, Volume.BytesPerCluster;
      assert DataRun(Nth(first, k), 1);
    }

    lemma PlaceOnDisk(a: nat, k: nat, r: nat)
      requires volume.Sound() && AreaFits() && a == volume.device.startSector + volume.v.dataStart
      ensures a * volume.device.SectorSize() + (k * ClusterSize() + r) == OnDisk(k, r)
    {
      hide FatVolume.Sound, AreaFits, Volume.BytesPerCluster;
      AreaSectors();
      var bps, q := volume.device.SectorSize(), k * volume.v.secPerClus;
      Rescaled(k, bps, volume.v.secPerClus, ClusterSize());
      Distribute(bps, a, q);
    }

    lemma AreaOnDisk(x: nat)
      requires volume.Sound() && AreaFits() && x < |Area()|
      ensures var at := (volume.device.startSector + volume.v.dataStart) * volume.device.SectorSize() + x;
        at < |volume.device.drive.disk| && Area()[x] == volume.device.drive.disk[at]
    {
      hide FatVolume.Sound, AreaFits, Volume.BytesPerCluster, Volume.ClusterCount;
      AreaSectors();
      DeviceIsSound();
      volume.device.drive.ByteOfSectors(volume.device.startSector + volume.v.dataStart,
                                        volume.v.ClusterCount() * volume.v.secPerClus, x);
    }

    lemma DeviceIsSound()
      requires volume.Sound()
      ensures volume.device.Sound() && volume.device.drive.Valid()
      ensures volume.device.startSector + volume.device.nSectors <= volume.device.drive.info.nTotalSectors
    {
    }

    /** Bytes o to o + len of a run of clusters are in the data area. */
    lemma InArea(c: nat, n: nat, o: nat, len: nat)
      requires volume.Sound() && AreaFits() && DataRun(c, n) && o + len <= n * ClusterSize()
      ensures (c - 2) * ClusterSize() + o + len <= |Area()|
      ensures |Area()| == volume.v.ClusterCount() * ClusterSize()
    {
      hide Volume.ClusterCount, Volume.WellFormed, Volume.BytesPerCluster, AreaFits;
      SmallerUnits(volume.v.ClusterCount());
      UnitsFit(ClusterSize(), c - 2, n);
      FewerUnitsFit(ClusterSize(), 0, c - 2 + n, volume.v.ClusterCount(), |Area()|);
    }

    /** The file's clusters i to i + n are c to c + n. */
    ghost predicate RunAt(i: nat, c: nat, n: nat)
      requires volume.Sound()
    {
      DataRun(c, n) && forall k {:trigger Nth(first, k)} :: i <= k < i + n ==> Nth(first, k) == c + (k - i)
    }

    lemma RunByte(i: nat, c: nat, n: nat, x: nat, p: nat, a: nat)
      requires Sound() && RunAt(i, c, n) && x < n * ClusterSize()
      requires p == i * ClusterSize() + x < size && a == (c - 2) * ClusterSize() + x
      ensures a < |Area()| && Content()[p] == Area()[a]
    {
      hide Area, RunAt, DataRun, Nth, ByteOf, AreaFits, FatVolume.Sound, Volume.ClusterCount, Volume.WellFormed,
        Volume.BytesPerCluster, Sound;
      var cs := ClusterSize();
      Known();
      DataRunOf(i, c, n);
      PlaceInRun(cs, i, n, x);
      PlaceInRun(cs, c - 2, n, x);
      InArea(c, n, x, 1);
      ByteInRun(i, c, n, x / cs, x % cs);
    }

    lemma ByteInRun(i: nat, c: nat, n: nat, q: nat, r: nat)
      requires Sound() && RunAt(i, c, n) && q < n && r < ClusterSize() && (i + q) * ClusterSize() + r < size
      ensures (c - 2 + q) * ClusterSize() + r < |Area()|
      ensures ByteOf(i + q, r) == Area()[(c - 2 + q) * ClusterSize() + r]
    {
      hide Area, AreaFits, FatVolume.Sound, Volume.ClusterCount, Volume.WellFormed, Volume.BytesPerCluster;
      var d := Nth(first, i + q);
      assert d == c + q && d - 2 == c - 2 + q;
      InArea(d, 1, r, 1);
    }

    /** Where a cluster's sectors begin, computed in 32 bits. */
    function FirstSector(c: nat): nat
      requires 2 <= c
    {
      (volume.v.dataStart + (c - 2) * volume.v.secPerClus) % 0x1_0000_0000
    }

    /** What ReadSector delivers for a run of clusters. */
    lemma ClusterSectors(c: nat, n: nat)
      requires volume.Sound() && AreaFits() && DataRun(c, n)
      ensures FirstSector(c) + n * volume.v.secPerClus <= volume.device.nSectors
      ensures (c - 2 + n) * ClusterSize() <= |Area()|
      ensures volume.device.Sectors(FirstSector(c), n * volume.v.secPerClus) == Units(Area(), ClusterSize(), c - 2, n)
    {
      hide FirstSector, AreaFits, FatVolume.Sound, Volume.ClusterCount, Volume.WellFormed, Volume.BytesPerCluster,
        Device.Sectors, Units;
      RunFits(c, n);
      AreaSectors();
      var c2, spc, count := c - 2, volume.v.secPerClus, volume.v.ClusterCount();
      volume.device.SectorsOfRun(volume.v.dataStart, count * spc, c2 * spc, n * spc);
      UnitsRescaled(Area(), volume.v.bps, spc, ClusterSize(), c2, n);
    }

    lemma AreaSectors()
      requires volume.Sound() && AreaFits()
      ensures volume.device.Sound() && volume.v.bps == volume.device.SectorSize()
      ensures ClusterSize() == volume.v.bps * volume.v.secPerClus
      ensures volume.v.dataStart + volume.v.ClusterCount() * volume.v.secPerClus <= volume.device.nSectors
    {
    }

    lemma RunFits(c: nat, n: nat)
      requires volume.Sound() && AreaFits() && DataRun(c, n)
      ensures (c - 2) * volume.v.secPerClus + n * volume.v.secPerClus <= volume.v.ClusterCount() * volume.v.secPerClus
      ensures FirstSector(c) == volume.v.dataStart + (c - 2) * volume.v.secPerClus
      ensures (c - 2 + n) * ClusterSize() <= |Area()|
    {
      hide Volume.ClusterCount, Volume.WellFormed, Volume.BytesPerCluster;
      FewerUnitsFit(volume.v.secPerClus, 0, c - 2 + n, volume.v.ClusterCount(),
                    volume.v.ClusterCount() * volume.v.secPerClus);
      UnitsFit(volume.v.secPerClus, c - 2, n);
      SmallerUnits(volume.v.ClusterCount());
      FewerUnitsFit(ClusterSize(), 0, c - 2 + n, volume.v.ClusterCount(), |Area()|);
    }

    lemma SmallerUnits(n: nat)
      ensures n * volume.v.secPerClus * volume.v.bps == n * ClusterSize()
    {
      Rescaled(n, volume.v.bps, volume.v.secPerClus, ClusterSize());
    }

    /** Bytes o to o + len of the n clusters from c on. */
    function RunBytes(c: nat, n: nat, o: nat, len: nat): (r: seq<byte>)
      requires volume.Sound() && AreaFits() && DataRun(c, n) && o + len <= n * ClusterSize()
      ensures |r| == len
    {
      InArea(c, n, o, len);
      Area()[(c - 2) * ClusterSize() + o..(c - 2) * ClusterSize() + o + len]
    }

    /** Within a run of clusters the file's bytes are consecutive in the data area. */
    lemma {:induction false} RunSlice(i: nat, c: nat, n: nat, o: nat, len: nat, p: nat)
      requires Sound() && RunAt(i, c, n) && o + len <= n * ClusterSize() && p == i * ClusterSize() + o
      requires p + len <= size
      ensures Content()[p..p + len] == RunBytes(c, n, o, len)
    {
      hide ByteAt, ByteOf, Area, Content, Nth, RunAt, Sound, AreaFits, FatVolume.Sound, Volume.BytesPerCluster,
        DataRun;
      Known();
      DataRunOf(i, c, n);
      InArea(c, n, o, len);
      SameBytes(i, c, n, o, len, p, (c - 2) * ClusterSize() + o);
    }

    lemma {:induction false} SameBytes(i: nat, c: nat, n: nat, o: nat, len: nat, p: nat, a: nat)
      requires Sound() && RunAt(i, c, n) && o + len <= n * ClusterSize() && p + len <= size && a + len <= |Area()|
      requires p == i * ClusterSize() + o && a == (c - 2) * ClusterSize() + o
      ensures Content()[p..p + len] == Area()[a..a + len]
    {
      hide ByteAt, ByteOf, Area, Content, Nth, RunAt, Sound, AreaFits, FatVolume.Sound, Volume.BytesPerCluster;
      Known();
      if len > 0 {
        SameBytes(i, c, n, o, len - 1, p, a);
        RunByte(i, c, n, o + len - 1, p + len - 1, a + len - 1);
        OneMore(Content(), p, len);
        OneMore(Area(), a, len);
      }
    }

    // -------------------------------------------------------------- runs

    /** The n clusters from c on are linked in order. */
    ghost predicate Linked(c: nat, n: nat)
      requires volume.Sound()
    {
      forall d {:trigger volume.Next(d)} :: c <= d < c + n - 1 ==> volume.Next(d) == d + 1
    }

    /** The n clusters from c on are all that are wanted, or all that follow each other. */
    ghost predicate Longest(c: nat, n: nat, wanted: nat)
      requires volume.Sound() && 1 <= n
    {
      n == wanted || c + n == End() || volume.Next(c + n - 1) != c + n
    }

    /** How many clusters, up to `wanted`, follow each other on the volume from the current one on. */
    method FindRun(wanted: nat) returns (n: nat, next: nat)
      requires Valid() && 2 <= cluster < End() && 0 < wanted
      modifies volume.device.cache, volume.device.cache.items, volume.device.env
      ensures Valid() && old(volume.device.env.asked) <= volume.device.env.asked && next < 0x1_0000_0000
      ensures 1 <= n <= wanted && cluster + n <= End() && Linked(cluster, n)
      ensures next == volume.Next(cluster + n - 1) || next >= End()
      ensures volume.device.env.Smooth(old(volume.device.env.asked), volume.device.env.asked) ==>
                volume.SameLink(next, volume.Next(cluster + n - 1)) && Longest(cluster, n, wanted)
    {
      hide FatVolume.Next, FatVolume.Table, FatVolume.Sound, AreaFits, Device.Valid;
      next := volume.GetNextCluster(cluster);
      n := 1;
      while 2 <= next < End() && next == cluster + n && next < cluster + wanted
        invariant Valid() && old(volume.device.env.asked) <= volume.device.env.asked && next < 0x1_0000_0000
        invariant 1 <= n <= wanted && cluster + n <= End() && Linked(cluster, n)
        invariant next == volume.Next(cluster + n - 1) || next >= End()
        invariant volume.device.env.Smooth(old(volume.device.env.asked), volume.device.env.asked) ==>
                  volume.SameLink(next, volume.Next(cluster + n - 1))
        decreases wanted - n
      {
        next := volume.GetNextCluster(cluster + n);
        n := n + 1;
      }
    }

    /** On the chain, linked clusters are a run of the file. */
    lemma {:induction false} RunOnChain(i: nat, c: nat, n: nat)
      requires Sound() && c == Nth(first, i) && Linked(c, n) && 1 <= n && (i + n - 1) * ClusterSize() < size
      ensures RunAt(i, c, n)
    {
      hide FatVolume.Next, FatVolume.Sound, AreaFits, Volume.WellFormed, Volume.ClusterCount;
      FewerUnitsFit(ClusterSize(), 0, i, i + n - 1, (i + n - 1) * ClusterSize());
      assert DataRun(Nth(first, i), 1);
      if n > 1 {
        FewerUnitsFit(ClusterSize(), 0, i + n - 2, i + n - 1, (i + n - 1) * ClusterSize());
        RunOnChain(i, c, n - 1);
        assert Nth(first, i + n - 2) == c + n - 2;
        assert Nth(first, i + n - 1) == volume.Next(c + n - 2) == c + n - 1;
        assert DataRun(Nth(first, i + n - 1), 1);
      }
    }

    /** The clusters from c on. */
    method ReadClusters(c: nat, count: nat, tmp: array<byte>) returns (ok: bool)
      requires Sound() && volume.Valid() && 2 <= c && 0 < count && tmp.Length == count * ClusterSize()
      modifies tmp, volume.device.cache, volume.device.cache.items, volume.device.env
      ensures volume.Valid() && old(volume.device.env.asked) <= volume.device.env.asked
      ensures DataRun(c, count) ==> (c - 2 + count) * ClusterSize() <= |Area()|
      ensures ok && DataRun(c, count) ==> tmp[..] == Units(Area(), ClusterSize(), c - 2, count)
      ensures volume.device.env.Smooth(old(volume.device.env.asked), volume.device.env.asked) && DataRun(c, count) ==>
                ok
    {
      hide Sound, FatVolume.Sound, AreaFits, FirstSector, DataRun, Volume.WellFormed, Volume.ClusterCount,
        Volume.BytesPerCluster, Units, Area, Device.Sectors, Device.Valid;
      Known();
      SmallerUnits(count);
      if DataRun(c, count) {
        ClusterSectors(c, count);
      }
      ok := volume.device.Fill(FirstSector(c), count * volume.v.secPerClus, tmp);
    }

    /** A buffer of as many of the n clusters from the current one on as there is memory for. */
    method Fetch(n: nat) returns (ok: bool, count: nat, tmp: array<byte>)
      requires Valid() && 2 <= cluster && 0 < n
      modifies volume.device.cache, volume.device.cache.items, volume.device.env
      ensures Valid() && old(volume.device.env.asked) <= volume.device.env.asked && fresh(tmp)
      ensures ok ==> 1 <= count <= n && tmp.Length == count * ClusterSize()
      ensures ok && DataRun(cluster, n) ==>
                && (cluster - 2 + count) * ClusterSize() <= |Area()|
                && tmp[..] == Units(Area(), ClusterSize(), cluster - 2, count)
      ensures volume.device.env.Smooth(old(volume.device.env.asked), volume.device.env.asked) && DataRun(cluster, n) ==>
                ok == (Obtained(n, ClusterSize()) != 0)
    {
      hide FatVolume.Sound, AreaFits, Volume.WellFormed, Volume.ClusterCount, Volume.BytesPerCluster, Units, Area,
        Device.Valid;
      ok, count := volume.device.env.GetBuffer(n, ClusterSize());
      if !ok {
        tmp := new byte[0];
        return;
      }
      tmp := new byte[count * ClusterSize()](_ => 0);
      ok := ReadClusters(cluster, count, tmp);
    }

    lemma CutOut(n: nat, count: nat, skip: nat, len: nat)
      requires Sound() && DataRun(cluster, n) && count <= n && skip + len <= count * ClusterSize()
      ensures (cluster - 2 + count) * ClusterSize() <= |Area()| && skip + len <= n * ClusterSize()
      ensures Units(Area(), ClusterSize(), cluster - 2, count)[skip..skip + len] == RunBytes(cluster, n, skip, len)
    {
      hide Sound, Area, RunBytes, Units, AreaFits, FatVolume.Sound, Volume.WellFormed, Volume.ClusterCount,
        Volume.BytesPerCluster;
      Known();
      FewerUnitsFit(ClusterSize(), 0, count, n, n * ClusterSize());
      SliceOfRun(cluster - 2, cluster, n, count, skip, len);
    }

    lemma SliceOfRun(c2: nat, c: nat, n: nat, count: nat, skip: nat, len: nat)
      requires volume.Sound() && AreaFits() && c == c2 + 2 && DataRun(c, n) && count <= n
      requires skip + len <= count * ClusterSize() && skip + len <= n * ClusterSize()
      ensures (c2 + count) * ClusterSize() <= |Area()|
      ensures Units(Area(), ClusterSize(), c2, count)[skip..skip + len] == RunBytes(c, n, skip, len)
    {
      hide Area, AreaFits, FatVolume.Sound, Volume.WellFormed, Volume.ClusterCount, Volume.BytesPerCluster;
      RunFits(c, count);
      InArea(c, n, skip, len);
      SliceOfUnits(Area(), ClusterSize(), c2, count, skip, len);
    }

    /** n clusters from c on hold `left` bytes from position p on, and the last of them is needed. */
    predicate Wanted(c: nat, p: nat, n: nat, left: nat) {
      1 <= n && 1 <= left && 2 <= c && c + n <= End() && (n - 1) * ClusterSize() < WithinOf(p) + left
    }

    /** A piece of n clusters moved from position p and cluster c to q and d: `count` clusters, or all bytes. */
    predicate Piece(p: nat, c: nat, n: nat, left: nat, q: nat, d: nat, count: nat, len: nat) {
      && 1 <= count <= n && 1 <= len <= left && q == p + len
      && d + IndexOf(p) == c + IndexOf(q)
      && ((len == left && count == n && IndexOf(q) == IndexOf(p) + n - 1)
          || (IndexOf(q) == IndexOf(p) + count && WithinOf(q) == 0))
      && (count < n ==> Wanted(d, q, n - count, left - len))
    }

    /** What one transfer comes to: the rest of `count` clusters after byte o of the first, or all that is wanted. */
    lemma PieceOf(p: nat, c: nat, n: nat, left: nat, count: nat) returns (len: nat)
      requires Sound() && Wanted(c, p, n, left) && 1 <= count <= n
      ensures WithinOf(p) < count * ClusterSize()
      ensures len == if left < count * ClusterSize() - WithinOf(p) then left else count * ClusterSize() - WithinOf(p)
      ensures IndexOf(p) <= IndexOf(p + len)
      ensures Piece(p, c, n, left, p + len, c + (IndexOf(p + len) - IndexOf(p)), count, len)
      ensures c + (IndexOf(p + len) - IndexOf(p)) <= End()
    {
      hide Sound, IndexOf, WithinOf, AreaFits, Volume.WellFormed, Volume.BytesPerCluster, EndCluster;
      Known();
      Position(p);
      var j, r;
      len, j, r := Advance(ClusterSize(), IndexOf(p), WithinOf(p), n, count, left);
      AtPosition(p + len, j, r);
    }

    /**
     One transfer: as many of the n remaining clusters of a run as there is memory for.  It ends
     with a cluster, or in the last one with all that was wanted.
     */
    method Transfer(n: nat, left: nat, buffer: array<byte>, at: nat) returns (ok: bool, count: nat, len: nat)
      requires Valid() && Wanted(cluster, cursor, n, left)
      requires cursor + left <= size && at + left <= buffer.Length
      modifies this`cursor, this`cluster, buffer, volume.device.cache, volume.device.cache.items, volume.device.env
      ensures Valid() && old(volume.device.env.asked) <= volume.device.env.asked
      ensures SameOutside(old(buffer[..]), buffer[..], at, left)
      ensures if ok then Piece(old(cursor), old(cluster), n, left, cursor, cluster, count, len)
              else cursor == old(cursor) && cluster == old(cluster) && buffer[..] == old(buffer[..])
      ensures ok && DataRun(old(cluster), n) ==>
                WithinOf(old(cursor)) + len <= n * ClusterSize()
                && buffer[..] == Spliced(old(buffer[..]), at, RunBytes(old(cluster), n, WithinOf(old(cursor)), len))
      ensures volume.device.env.Smooth(old(volume.device.env.asked), volume.device.env.asked) ==>
                DataRun(old(cluster), n) ==>
                ok == (Obtained(n, ClusterSize()) != 0)
    {
      hide SameOutside, Sound, IndexOf, WithinOf, Wanted, Piece, Units, Area, RunBytes, DataRun, Spliced,
        FatVolume.Sound, AreaFits, Volume.WellFormed, Volume.ClusterCount, Volume.BytesPerCluster, FatVolume.Valid,
        EndCluster, Obtained, Oracle.Smooth;
      Known();
      AtLeastOne(cluster, cursor, n, left);
      len := 0;
      ghost var b0 := buffer[..];
      Untouched(b0, at, left);
      var skip := WithinOf(cursor);
      var tmp;
      ok, count, tmp := Fetch(n);
      if !ok {
        return;
      }
      ghost var most := PieceOf(cursor, cluster, n, left, count);
      PieceBounds(cursor, cluster, n, left, cursor + most, cluster + (IndexOf(cursor + most) - IndexOf(cursor)), count,
                  most);
      len := count * ClusterSize() - skip;
      if left < len {
        len := left;
      }
      if DataRun(cluster, n) {
        CutOut(n, count, skip, len);
      }
      SplicedOutside(b0, at, tmp[skip..skip + len], left);
      Memcpy(buffer, at, tmp[skip..skip + len]);
      cluster := cluster + (IndexOf(cursor + len) - IndexOf(cursor));
      cursor := cursor + len;
    }

    lemma PieceBounds(p: nat, c: nat, n: nat, left: nat, q: nat, d: nat, count: nat, len: nat)
      requires Piece(p, c, n, left, q, d, count, len)
      ensures 1 <= len <= left && EndCluster(volume.v.kind) < 0x1_0000_0000
    {
      hide IndexOf, WithinOf, Wanted;
    }

    /** At the end of the run, or of what is wanted. */
    predicate Finished(p: nat, n: nat, left: nat, q: nat) {
      (q == p + left && IndexOf(q) == IndexOf(p) + n - 1) || (IndexOf(q) == IndexOf(p) + n && WithinOf(q) == 0)
    }

    lemma AtLeastOne(c: nat, p: nat, n: nat, left: nat)
      requires Wanted(c, p, n, left)
      ensures 1 <= n && 1 <= left && 2 <= c && Progress(p, c, n, left, n, 0, p, c)
    {
    }

    lemma SubRun(i: nat, c: nat, n: nat, j: nat, d: nat, m: nat)
      requires volume.Sound() && RunAt(i, c, n) && i <= j && j - i == d - c == n - m && m <= n
      ensures RunAt(j, d, m)
    {
    }

    /** Whether memory for a run can be had when nothing fails. */
    lemma RunBuffers(m: nat)
      requires volume.v.WellFormed() && 1 <= m
      ensures Obtained(m, ClusterSize()) != 0 <==> m == 1 || ClusterSize() <= 16384
    {
      if ClusterSize() <= 16384 {
        SmallUnitsAreObtained(m, ClusterSize());
      } else {
        LargeUnitsAreNot(m, ClusterSize());
      }
    }

    lemma DataRunOf(i: nat, c: nat, n: nat)
      requires volume.Sound() && RunAt(i, c, n)
      ensures DataRun(c, n)
    {
    }

    /** b is b0 with `read` bytes of the file, from position `from` on, written over it at `at`. */
    ghost predicate Got(b: seq<byte>, b0: seq<byte>, at: nat, from: nat, read: nat)
      requires Sound()
    {
      from + read <= size && at + read <= |b0| && b == Spliced(b0, at, Content()[from..from + read])
    }

    lemma GotNothing(b: seq<byte>, at: nat, from: nat)
      requires Sound() && from <= size && at <= |b|
      ensures Got(b, b, at, from, 0)
    {
      NothingCopied(b, Content(), at, from);
    }

    lemma GotMore(b: seq<byte>, b1: seq<byte>, b0: seq<byte>, at: nat, from: nat, read: nat, q: nat, len: nat)
      requires Sound() && Got(b1, b0, at, from, read) && q == from + read && Got(b, b1, at + read, q, len)
      ensures Got(b, b0, at, from, read + len)
    {
      hide Content;
      SplicedTwice(b0, at, Content()[from..from + read], Content()[from + read..from + read + len]);
      SlicesJoin(Content(), from, read, len);
    }

    /** The bytes of a piece are those of the file from position p on. */
    lemma GotPiece(b: seq<byte>, b1: seq<byte>, at: nat, p: nat, len: nat, i: nat, c: nat, m: nat, o: nat)
      requires Sound() && RunAt(i, c, m) && DataRun(c, m) && o + len <= m * ClusterSize()
      requires i == IndexOf(p) && o == WithinOf(p) && p + len <= size && at + len <= |b1|
      requires b == Spliced(b1, at, RunBytes(c, m, o, len))
      ensures Got(b, b1, at, p, len)
    {
      hide IndexOf, WithinOf, Content, RunBytes, RunAt, DataRun, Sound, AreaFits, FatVolume.Sound,
        Volume.BytesPerCluster;
      Known();
      Position(p);
      RunSlice(i, c, m, o, len, p);
    }

    /** Where a run of n clusters stands that began at position p in cluster c, with m of them to go. */
    predicate Progress(p: nat, c: nat, n: nat, left: nat, m: nat, read: nat, q: nat, d: nat) {
      && m <= n && read <= left && q == p + read
      && d + IndexOf(p) == c + IndexOf(q)
      && (m > 0 ==> IndexOf(q) == IndexOf(p) + n - m && Wanted(d, q, m, left - read))
      && (m == 0 ==> Finished(p, n, left, q))
      && (m == n > 0 ==> read == 0)
    }

    lemma Progresses(p: nat, c: nat, n: nat, left: nat, m: nat, read: nat, q: nat, d: nat, count: nat, len: nat,
                     q': nat, d': nat)
      requires 0 < m && Progress(p, c, n, left, m, read, q, d) && Piece(q, d, m, left - read, q', d', count, len)
      ensures 1 <= count <= m && Progress(p, c, n, left, m - count, read + len, q', d')
    {
      hide IndexOf, WithinOf, Wanted;
    }

    /** A transfer of clusters on the file's chain delivers bytes of the file. */
    method ReadPiece(n: nat, left: nat, buffer: array<byte>, at: nat) returns (ok: bool, count: nat, len: nat)
      requires Valid() && Wanted(cluster, cursor, n, left)
      requires cursor + left <= size && at + left <= buffer.Length
      modifies this`cursor, this`cluster, buffer, volume.device.cache, volume.device.cache.items, volume.device.env
      ensures Valid() && old(volume.device.env.asked) <= volume.device.env.asked
      ensures SameOutside(old(buffer[..]), buffer[..], at, left)
      ensures if ok then Piece(old(cursor), old(cluster), n, left, cursor, cluster, count, len)
              else len == 0 && cursor == old(cursor) && cluster == old(cluster)
      ensures RunAt(IndexOf(old(cursor)), old(cluster), n) ==> Got(buffer[..], old(buffer[..]), at, old(cursor), len)
      ensures volume.device.env.Smooth(old(volume.device.env.asked), volume.device.env.asked) ==>
                RunAt(IndexOf(old(cursor)), old(cluster), n) ==>
                ok == (n == 1 || ClusterSize() <= 16384)
    {
      hide SameOutside, Obtained, EndCluster, Wanted, Sound, FatVolume.Sound, AreaFits, RunAt, RunBytes, DataRun, Got,
        IndexOf, WithinOf, Spliced, Device.Valid, Volume.WellFormed, Volume.BytesPerCluster;
      ghost var i, c, o, b1, p := IndexOf(cursor), cluster, WithinOf(cursor), buffer[..], cursor;
      Known();
      ghost var good := RunAt(i, c, n);
      AtLeastOne(c, p, n, left);
      RunBuffers(n);
      if good {
        DataRunOf(i, c, n);
      }
      GotNothing(b1, at, p);
      ok, count, len := Transfer(n, left, buffer, at);
      if !ok {
        len := 0;
      } else if good {
        GotPiece(buffer[..], b1, at, p, len, i, c, n, o);
      }
    }

    /** A run of clusters is read in as many pieces as memory calls for. */
    method ReadRun(n: nat, left: nat, buffer: array<byte>, at: nat) returns (ok: bool, read: nat)
      requires Valid() && Wanted(cluster, cursor, n, left) && cursor + left <= size && at + left <= buffer.Length
      modifies this`cursor, this`cluster, buffer, volume.device.cache, volume.device.cache.items, volume.device.env
      ensures Valid() && old(volume.device.env.asked) <= volume.device.env.asked
      ensures SameOutside(old(buffer[..]), buffer[..], at, left)
      ensures read <= left && cursor == old(cursor) + read
      ensures cluster + IndexOf(old(cursor)) == old(cluster) + IndexOf(cursor)
      ensures if ok then Finished(old(cursor), n, left, cursor) else IndexOf(cursor) < IndexOf(old(cursor)) + n
      ensures RunAt(IndexOf(old(cursor)), old(cluster), n) ==> Got(buffer[..], old(buffer[..]), at, old(cursor), read)
      ensures volume.device.env.Smooth(old(volume.device.env.asked), volume.device.env.asked) ==>
                RunAt(IndexOf(old(cursor)), old(cluster), n) ==>
                if n == 1 || ClusterSize() <= 16384 then ok else !ok && read == 0
    {
      hide SameOutside, Progress, Piece, EndCluster, Wanted, Finished, Sound, FatVolume.Sound, AreaFits, RunAt, Got,
        IndexOf, WithinOf, FatVolume.Valid, Volume.WellFormed, Volume.BytesPerCluster, Oracle.Smooth;
      ghost var i, c, b0, from, start := IndexOf(cursor), cluster, buffer[..], cursor, volume.device.env.asked;
      Known();
      ghost var good := RunAt(i, c, n);
      AtLeastOne(c, from, n, left);
      GotNothing(b0, at, from);
      Untouched(b0, at, left);
      read := 0;
      ok := true;
      var m: nat := n;
      while m > 0 && ok
        invariant Valid() && start <= volume.device.env.asked
        invariant Progress(from, c, n, left, m, read, cursor, cluster)
        invariant good ==> Got(buffer[..], b0, at, from, read)
        invariant SameOutside(b0, buffer[..], at, left)
        invariant !ok ==> m > 0
        invariant volume.device.env.Smooth(start, volume.device.env.asked) && good ==>
                    if n == 1 || ClusterSize() <= 16384 then ok else m == n
        decreases m, ok
      {
        ghost var b1, q, d, before := buffer[..], cursor, cluster, volume.device.env.asked;
        Unfolded(from, c, n, left, m, read, q, d);
        if good {
          SubRun(i, c, n, IndexOf(q), d, m);
        }
        var count, len;
        ok, count, len := ReadPiece(m, left - read, buffer, at + read);
        OutsideJoins(b0, b1, buffer[..], at, left, at + read, left - read);
        if good {
          GotMore(buffer[..], b1, b0, at, from, read, q, len);
          if volume.device.env.Smooth(start, volume.device.env.asked) {
            volume.device.env.SmoothParts(start, before, volume.device.env.asked);
          }
        }
        if ok {
          Progresses(from, c, n, left, m, read, q, d, count, len, cursor, cluster);
          m := m - count;
        }
        read := read + len;
      }
      Unfolded(from, c, n, left, m, read, cursor, cluster);
    }

    lemma Unfolded(p: nat, c: nat, n: nat, left: nat, m: nat, read: nat, q: nat, d: nat)
      requires Progress(p, c, n, left, m, read, q, d)
      ensures m <= n && read <= left && q == p + read && d + IndexOf(p) == c + IndexOf(q)
      ensures m > 0 ==> IndexOf(q) == IndexOf(p) + n - m && Wanted(d, q, m, left - read) && (m == n ==> read == 0)
      ensures m == 0 ==> Finished(p, n, left, q)
    {
    }

    // -------------------------------------------------------------- reading

    /** The file's cluster j does not follow its predecessor on the volume. */
    ghost predicate Break(j: nat)
      requires volume.Sound()
    {
      0 < j && Nth(first, j) != Nth(first, j - 1) + 1
    }

    /** The cluster is the one for position p on the chain that begins with `start`. */
    ghost predicate OnChainOf(start: nat, c: nat, p: nat)
      requires volume.Sound()
    {
      volume.SameLink(c, Nth(start, IndexOf(p)))
    }

    /** The cluster is the one on the file's chain at position p. */
    ghost predicate OnChainAt(c: nat, p: nat)
      requires volume.Sound()
    {
      OnChainOf(first, c, p)
    }

    /** No cluster that begins after position p and before q breaks a run. */
    ghost predicate Unbroken(p: nat, q: nat)
      requires volume.Sound()
    {
      forall j :: IndexOf(p) < j && j * ClusterSize() < q ==> !Break(j)
    }

    /** Position q is where a run ends. */
    ghost predicate AtBreak(q: nat)
      requires volume.Sound()
    {
      WithinOf(q) == 0 && Break(IndexOf(q))
    }

    lemma Needed(p: nat, left: nat, wanted: nat, n: nat)
      requires volume.v.WellFormed() && 0 < left && wanted == (WithinOf(p) + left + ClusterSize() - 1) / ClusterSize()
      requires 1 <= n <= wanted
      ensures (n - 1) * ClusterSize() < WithinOf(p) + left
      ensures (IndexOf(p) + n - 1) * ClusterSize() < p + left
      ensures n == wanted ==> p + left <= (IndexOf(p) + n) * ClusterSize()
    {
      hide IndexOf, WithinOf;
      Position(p);
      RoundedUp(WithinOf(p) + left, ClusterSize(), wanted);
      FewerUnitsFit(ClusterSize(), 0, n, wanted, wanted * ClusterSize());
      UnitsFit(ClusterSize(), n - 1, 1);
      UnitsFit(ClusterSize(), IndexOf(p), n - 1);
      UnitsFit(ClusterSize(), IndexOf(p), n);
    }

    /** What a run of n clusters, the last of them needed, means for the file. */
    lemma RunFromHere(p: nat, left: nat, c: nat, n: nat, wanted: nat)
      requires Sound() && OnChainAt(c, p) && c < End() && Linked(c, n) && 1 <= n <= wanted && 0 < left
      requires p + left <= size
      requires wanted == (WithinOf(p) + left + ClusterSize() - 1) / ClusterSize()
      ensures RunAt(IndexOf(p), c, n) && Nth(first, IndexOf(p) + n) == volume.Next(c + n - 1)
    {
      hide IndexOf, WithinOf, FatVolume.Next, FatVolume.Sound, AreaFits, Volume.WellFormed, Volume.ClusterCount;
      Known();
      Needed(p, left, wanted, n);
      RunOnChain(IndexOf(p), c, n);
    }

    lemma IsWanted(c: nat, p: nat, n: nat, left: nat)
      requires 1 <= n && 1 <= left && 2 <= c && c + n <= End() && (n - 1) * ClusterSize() < WithinOf(p) + left
      ensures Wanted(c, p, n, left)
    {
    }

    /** The position after a run that was not cut short. */
    lemma Landed(p: nat, left: nat, n: nat, wanted: nat, q: nat)
      requires volume.v.WellFormed() && 0 < left && wanted == (WithinOf(p) + left + ClusterSize() - 1) / ClusterSize()
      requires 1 <= n <= wanted
      requires Finished(p, n, left, q) && p <= q <= p + left
      ensures p < q <= (IndexOf(p) + n) * ClusterSize()
      ensures if WithinOf(q) == 0 then IndexOf(q) == IndexOf(p) + n
              else q == p + left && IndexOf(q) == IndexOf(p) + n - 1
      ensures n == wanted ==> q == p + left
    {
      hide IndexOf, WithinOf, Volume.WellFormed, Volume.BytesPerCluster;
      Needed(p, left, wanted, n);
      Position(p);
      Position(q);
      UnitsFit(ClusterSize(), IndexOf(p) + n - 1, 1);
      UnitsFit(ClusterSize(), IndexOf(p), n);
    }

    lemma NoEarlier(p: nat, q: nat)
      requires volume.v.WellFormed() && p <= q
      ensures IndexOf(p) <= IndexOf(q)
    {
      hide IndexOf, WithinOf, Volume.WellFormed, Volume.BytesPerCluster;
      Position(p);
      Position(q);
      if IndexOf(q) < IndexOf(p) {
        UnitsFit(ClusterSize(), IndexOf(q), 1);
        FewerUnitsFit(ClusterSize(), 0, IndexOf(q) + 1, IndexOf(p), IndexOf(p) * ClusterSize());
        assert false;
      }
    }

    /** Where a completed run leaves the cluster. */
    lemma Chained(p: nat, c: nat, n: nat, q: nat, d: nat, next: nat, left: nat)
      requires volume.Sound() && RunAt(IndexOf(p), c, n) && Nth(first, IndexOf(p) + n) == volume.Next(c + n - 1)
      requires d + IndexOf(p) == c + IndexOf(q) && 1 <= n
      requires if WithinOf(q) == 0 then IndexOf(q) == IndexOf(p) + n else IndexOf(q) == IndexOf(p) + n - 1
      requires next == volume.Next(c + n - 1) || next >= End()
      ensures var e := if WithinOf(q) == 0 then next else d;
        && (OnChainAt(e, q) || e >= End())
        && (volume.SameLink(next, volume.Next(c + n - 1)) ==> OnChainAt(e, q))
    {
      hide IndexOf, WithinOf, FatVolume.Next, FatVolume.Sound;
      assert Nth(first, IndexOf(p) + n - 1) == c + n - 1;
    }

    /** A run that was cut short is still on the chain. */
    lemma CutShort(p: nat, c: nat, n: nat, q: nat, d: nat)
      requires volume.Sound() && RunAt(IndexOf(p), c, n) && d + IndexOf(p) == c + IndexOf(q)
      requires IndexOf(p) <= IndexOf(q) < IndexOf(p) + n
      ensures OnChainAt(d, q)
    {
      hide IndexOf, FatVolume.Next, FatVolume.Sound;
      assert Nth(first, IndexOf(q)) == c + (IndexOf(q) - IndexOf(p));
    }

    lemma RunIsUnbroken(p: nat, c: nat, n: nat, q: nat)
      requires volume.Sound() && RunAt(IndexOf(p), c, n) && q <= (IndexOf(p) + n) * ClusterSize()
      ensures Unbroken(p, q)
    {
      hide IndexOf, FatVolume.Next, FatVolume.Sound, Volume.BytesPerCluster;
      forall j | IndexOf(p) < j && j * ClusterSize() < q ensures !Break(j) {
        if j >= IndexOf(p) + n {
          FewerUnitsFit(ClusterSize(), 0, IndexOf(p) + n, j, j * ClusterSize());
        } else {
          assert Nth(first, j) == c + (j - IndexOf(p)) && Nth(first, j - 1) == c + (j - 1 - IndexOf(p));
        }
      }
    }

    /** A run shorter than wanted ends at a break. */
    lemma EndsAtBreak(p: nat, c: nat, n: nat, q: nat)
      requires Sound() && RunAt(IndexOf(p), c, n) && 1 <= n && Nth(first, IndexOf(p) + n) == volume.Next(c + n - 1)
      requires IndexOf(q) == IndexOf(p) + n && WithinOf(q) == 0 && q < size
      requires c + n == End() || volume.Next(c + n - 1) != c + n
      ensures AtBreak(q)
    {
      hide IndexOf, WithinOf, FatVolume.Next, FatVolume.Sound, Volume.BytesPerCluster, Volume.WellFormed;
      Known();
      Position(q);
      assert Nth(first, IndexOf(p) + n - 1) == c + n - 1;
      assert DataRun(Nth(first, IndexOf(q)), 1);
    }

    /** Two clusters are wanted and follow each other. */
    ghost predicate NeedsTwo(p: nat, left: nat)
      requires volume.Sound()
    {
      WithinOf(p) + left > ClusterSize() && !Break(IndexOf(p) + 1)
    }

    lemma TwoInARow(p: nat, c: nat, left: nat, n: nat, wanted: nat)
      requires Sound() && OnChainAt(c, p) && c < End() && 1 <= n <= wanted && RunAt(IndexOf(p), c, n)
      requires Longest(c, n, wanted)
      requires 0 < left && p + left <= size && wanted == (WithinOf(p) + left + ClusterSize() - 1) / ClusterSize()
      requires NeedsTwo(p, left)
      ensures n != 1
    {
      hide IndexOf, WithinOf, FatVolume.Next, FatVolume.Sound, Volume.BytesPerCluster, Volume.WellFormed;
      Known();
      RoundedUp(WithinOf(p) + left, ClusterSize(), wanted);
      Position(p);
      UnitsFit(ClusterSize(), IndexOf(p), 1);
      assert Nth(first, IndexOf(p) + 1) == volume.Next(Nth(first, IndexOf(p)));
      assert DataRun(Nth(first, IndexOf(p) + 1), 1);
    }

    lemma TwoAreNeeded(p: nat, c: nat, left: nat, n: nat, wanted: nat)
      requires Sound() && 2 <= n <= wanted && RunAt(IndexOf(p), c, n)
      requires 0 < left && wanted == (WithinOf(p) + left + ClusterSize() - 1) / ClusterSize()
      ensures NeedsTwo(p, left)
    {
      hide IndexOf, WithinOf, FatVolume.Next, FatVolume.Sound, Volume.BytesPerCluster, Volume.WellFormed;
      Known();
      Needed(p, left, wanted, n);
      FewerUnitsFit(ClusterSize(), 0, 1, n - 1, (n - 1) * ClusterSize());
      assert Nth(first, IndexOf(p)) == c && Nth(first, IndexOf(p) + 1) == c + 1;
    }

    /** How a round ends when nothing fails. */
    ghost predicate RoundDone(p: nat, left: nat, ok: bool, k: nat, q: nat, d: nat)
      requires volume.Sound()
    {
      && OnChainAt(d, q)
      && (if ok then Unbroken(p, q) && (k == left || AtBreak(q)) else k == 0)
      && ok == (ClusterSize() <= 16384 || !NeedsTwo(p, left))
    }

    lemma RoundIsDone(p: nat, c: nat, left: nat, n: nat, wanted: nat, ok: bool, k: nat, q: nat, d: nat)
      requires Sound() && OnChainAt(c, p) && c < End() && 1 <= n <= wanted && RunAt(IndexOf(p), c, n)
      requires Longest(c, n, wanted)
      requires Nth(first, IndexOf(p) + n) == volume.Next(c + n - 1)
      requires 0 < left && p + left <= size && wanted == (WithinOf(p) + left + ClusterSize() - 1) / ClusterSize()
      requires q == p + k && k <= left && OnChainAt(d, q)
      requires if n == 1 || ClusterSize() <= 16384 then ok else !ok && k == 0
      requires ok ==> Finished(p, n, left, q)
      ensures RoundDone(p, left, ok, k, q, d)
    {
      hide IndexOf, WithinOf, Finished, OnChainAt, NeedsTwo, Unbroken, AtBreak, RunAt, Longest, FatVolume.Next,
        FatVolume.Sound, AreaFits, Volume.WellFormed, Volume.BytesPerCluster;
      Known();
      if NeedsTwo(p, left) {
        TwoInARow(p, c, left, n, wanted);
      } else if n != 1 {
        TwoAreNeeded(p, c, left, n, wanted);
      }
      if ok {
        Landed(p, left, n, wanted, q);
        RunIsUnbroken(p, c, n, q);
        if k < left {
          LongestEnds(c, n, wanted);
          EndsAtBreak(p, c, n, q);
        }
      }
    }

    lemma LongestEnds(c: nat, n: nat, wanted: nat)
      requires volume.Sound() && 1 <= n && Longest(c, n, wanted) && n != wanted
      ensures c + n == End() || volume.Next(c + n - 1) != c + n
    {
    }

    /** One round of _ReadFile's outer loop: a run of consecutive clusters. */
    method ReadRound(left: nat, buffer: array<byte>, at: nat) returns (ok: bool, k: nat)
      requires Valid() && 2 <= cluster < End() && 0 < left && cursor + left <= size && at + left <= buffer.Length
      modifies this`cursor, this`cluster, buffer, volume.device.cache, volume.device.cache.items, volume.device.env
      ensures Valid() && old(volume.device.env.asked) <= volume.device.env.asked
      ensures SameOutside(old(buffer[..]), buffer[..], at, left)
      ensures k <= left && cursor == old(cursor) + k && (ok ==> 1 <= k)
      ensures OnChainAt(old(cluster), old(cursor)) ==>
                Got(buffer[..], old(buffer[..]), at, old(cursor), k) && (OnChainAt(cluster, cursor) || cluster >= End())
      ensures volume.device.env.Smooth(old(volume.device.env.asked), volume.device.env.asked) ==>
                OnChainAt(old(cluster), old(cursor)) ==>
                RoundDone(old(cursor), left, ok, k, cursor, cluster)
    {
      hide SameOutside, Sound, IndexOf, WithinOf, Wanted, Finished, Longest, Linked, OnChainAt, RoundDone, AreaFits,
        FatVolume.Sound, FatVolume.Valid, FatVolume.Next, Volume.WellFormed, Volume.ClusterCount,
        Volume.BytesPerCluster, EndCluster, RunAt, Got, Oracle.Smooth;
      Known();
      ghost var p, c, good, start := cursor, cluster, OnChainAt(cluster, cursor), volume.device.env.asked;
      var wanted := (WithinOf(cursor) + left + ClusterSize() - 1) / ClusterSize();
      AtLeastOneCluster(p, left, wanted);
      var n, next := FindRun(wanted);
      ghost var between := volume.device.env.asked;
      Needed(p, left, wanted, n);
      IsWanted(c, p, n, left);
      if good {
        RunFromHere(p, left, c, n, wanted);
      }
      ok, k := ReadRun(n, left, buffer, at);
      ghost var d := cluster;
      if ok && WithinOf(cursor) == 0 {
        cluster := next;
      }
      if ok {
        Landed(p, left, n, wanted, cursor);
      }
      if good {
        if ok {
          Chained(p, c, n, cursor, d, next, left);
        } else {
          NoEarlier(p, cursor);
          CutShort(p, c, n, cursor, d);
        }
        if volume.device.env.Smooth(start, volume.device.env.asked) {
          volume.device.env.SmoothParts(start, between, volume.device.env.asked);
          RoundIsDone(p, c, left, n, wanted, ok, k, cursor, cluster);
        }
      }
    }

    lemma AtLeastOneCluster(p: nat, left: nat, wanted: nat)
      requires volume.v.WellFormed() && 0 < left && wanted == (WithinOf(p) + left + ClusterSize() - 1) / ClusterSize()
      ensures 1 <= wanted
    {
      hide WithinOf;
      RoundedUp(WithinOf(p) + left, ClusterSize(), wanted);
    }

    /** What _ReadFile takes a request for: nothing past the end of the file. */
    function Clamped(p: nat, nBytes: nat): nat {
      if p + nBytes > size && p <= size then size - p else nBytes
    }

    /** A position from p on where the reader looks for a run: p itself, or a break. */
    ghost predicate RunStart(p: nat, q: nat)
      requires volume.Sound()
    {
      q == p || (p < q && AtBreak(q))
    }

    /**
     A read of `request` bytes from p ends at run start q: half of them have been read, or the
     clusters have 32 KB and the run is of two or more, for which no buffer is ever obtained.
     */
    ghost predicate Stops(p: nat, request: nat, q: nat)
      requires volume.Sound() && p <= q
    {
      request <= 2 * (q - p) || (ClusterSize() > 16384 && NeedsTwo(q, request - (q - p)))
    }

    ghost predicate NoStop(p: nat, request: nat, q: nat)
      requires volume.Sound()
    {
      forall x {:trigger RunStart(p, x)} :: p <= x < q && RunStart(p, x) ==> !Stops(p, request, x)
    }

    /** Where a read of `request` bytes from p ends: at the first stop, or with the last of them. */
    ghost predicate ReadsTo(p: nat, request: nat, k: nat)
      requires volume.Sound()
    {
      && k <= request
      && (k == request || RunStart(p, p + k))
      && Stops(p, request, p + k)
      && NoStop(p, request, p + k)
    }

    lemma OnData(c: nat, p: nat)
      requires Sound() && OnChainAt(c, p) && p < size
      ensures 2 <= c < End()
    {
      hide FatVolume.Next, FatVolume.Sound, Volume.BytesPerCluster, IndexOf, WithinOf;
      Known();
      Position(p);
      assert DataRun(Nth(first, IndexOf(p)), 1);
    }

    lemma BeginsLater(p: nat, j: nat)
      requires volume.v.WellFormed() && p < j * ClusterSize()
      ensures IndexOf(p) < j
    {
      hide IndexOf, WithinOf, Volume.WellFormed, Volume.BytesPerCluster;
      Position(p);
      if j <= IndexOf(p) {
        FewerUnitsFit(ClusterSize(), 0, j, IndexOf(p), IndexOf(p) * ClusterSize());
        assert false;
      }
    }

    /** Within an unbroken stretch no run starts. */
    lemma NoRunStarts(from: nat, p: nat, q: nat, x: nat)
      requires volume.Sound() && from <= p < x < q && Unbroken(p, q)
      ensures !RunStart(from, x)
    {
      hide IndexOf, WithinOf, Break, FatVolume.Sound, Volume.BytesPerCluster, Volume.WellFormed;
      if RunStart(from, x) {
        Regular();
        Position(x);
        BeginsLater(p, IndexOf(x));
        assert false;
      }
    }

    /** How far a read has come when nothing has failed. */
    ghost predicate Underway(from: nat, request: nat, ok: bool, read: nat, q: nat, d: nat)
      requires volume.Sound()
    {
      && OnChainAt(d, q) && NoStop(from, request, q) && q == from + read
      && (read == request || RunStart(from, q))
      && (!ok ==> Stops(from, request, q))
    }

    lemma GoesOn(from: nat, request: nat, read: nat, p: nat, c: nat, ok: bool, k: nat, q: nat, d: nat)
      requires volume.Sound() && read < request - read && p == from + read && q == p + k && k <= request - read
      requires Underway(from, request, true, read, p, c) && RoundDone(p, request - read, ok, k, q, d) && (ok ==> 1 <= k)
      ensures Underway(from, request, ok, read + k, q, d)
    {
      hide IndexOf, WithinOf, Unbroken, AtBreak, NeedsTwo, OnChainAt, FatVolume.Sound, Volume.BytesPerCluster;
      forall x {:trigger RunStart(from, x)} | from <= x < q && RunStart(from, x) ensures !Stops(from, request, x) {
        if p < x {
          NoRunStarts(from, p, q, x);
        }
      }
    }

    lemma Begins(from: nat, request: nat, c: nat)
      requires volume.Sound() && OnChainAt(c, from)
      ensures Underway(from, request, true, 0, from, c)
    {
      hide OnChainAt, NeedsTwo, AtBreak, FatVolume.Sound, Volume.BytesPerCluster;
    }

    lemma Ends(from: nat, request: nat, ok: bool, read: nat, q: nat, d: nat)
      requires Sound() && Underway(from, request, ok, read, q, d) && read <= request && from + request <= size
      requires ok ==> read >= request - read || d < 2 || d >= End()
      ensures OnChainAt(d, q) && ReadsTo(from, request, read)
    {
      hide NeedsTwo, AtBreak, Sound, FatVolume.Sound, Volume.BytesPerCluster;
      if read < request {
        OnData(d, q);
      }
    }

    /**
     _ReadFile, into a buffer from `at` on.  From a position on the chain the bytes delivered are
     those of the file, the cursor moves past them, and the cluster stays on the chain or becomes
     an end mark.  When nothing fails the read ends where ReadsTo says.
     */
    method ReadFile(buffer: array<byte>, at: nat, nBytes: nat) returns (read: nat)
      requires Valid() && at + Clamped(cursor, nBytes) <= buffer.Length && cursor + nBytes < 0x1_0000_0000_0000_0000
      modifies this`cursor, this`cluster, buffer, volume.device.cache, volume.device.cache.items, volume.device.env
      ensures Valid() && old(volume.device.env.asked) <= volume.device.env.asked
      ensures SameOutside(old(buffer[..]), buffer[..], at, Clamped(old(cursor), nBytes))
      ensures read <= Clamped(old(cursor), nBytes) && cursor == old(cursor) + read
      ensures old(Lost()) ==> read == 0 && cluster == old(cluster) && buffer[..] == old(buffer[..])
      ensures OnChainAt(old(cluster), old(cursor)) ==>
                Got(buffer[..], old(buffer[..]), at, old(cursor), read) && (OnChainAt(cluster, cursor) || Lost())
      ensures volume.device.env.Smooth(old(volume.device.env.asked), volume.device.env.asked) ==>
                OnChainAt(old(cluster), old(cursor)) ==>
                OnChainAt(cluster, cursor) && ReadsTo(old(cursor), Clamped(old(cursor), nBytes), read)
    {
      hide SameOutside, Sound, IndexOf, WithinOf, OnChainAt, Underway, RoundDone, ReadsTo, Got, AreaFits,
        FatVolume.Sound, FatVolume.Valid, Volume.WellFormed, Volume.BytesPerCluster, EndCluster, Oracle.Smooth;
      Known();
      var left: nat := if cursor + nBytes > size then size - cursor else nBytes;
      ghost var from, request, b0 := cursor, left, buffer[..];
      ghost var good, start := OnChainAt(cluster, cursor), volume.device.env.asked;
      GotNothing(b0, at, from);
      Untouched(b0, at, request);
      if good {
        Begins(from, request, cluster);
      }
      read := 0;
      var ok := true;
      while ok && 2 <= cluster < End() && read < left
        invariant Valid() && start <= volume.device.env.asked && read + left == request && cursor == from + read
        invariant good ==> Got(buffer[..], b0, at, from, read) && (OnChainAt(cluster, cursor) || cluster >= End())
        invariant volume.device.env.Smooth(start, volume.device.env.asked) && good ==>
                  Underway(from, request, ok, read, cursor, cluster)
        invariant SameOutside(b0, buffer[..], at, request)
        invariant old(Lost()) ==> read == 0 && cluster == old(cluster) && buffer[..] == b0
        decreases ok, left
      {
        ghost var b1, p, c, before := buffer[..], cursor, cluster, volume.device.env.asked;
        var k;
        ok, k := ReadRound(left, buffer, at + read);
        OutsideJoins(b0, b1, buffer[..], at, request, at + read, left);
        if good {
          GotMore(buffer[..], b1, b0, at, from, read, p, k);
          if volume.device.env.Smooth(start, volume.device.env.asked) {
            volume.device.env.SmoothParts(start, before, volume.device.env.asked);
            GoesOn(from, request, read, p, c, ok, k, cursor, cluster);
          }
        }
        read := read + k;
        left := left - k;
      }
      if volume.device.env.Smooth(start, volume.device.env.asked) && good {
        Ends(from, request, ok, read, cursor, cluster);
      }
    }

    /** ReadsTo leaves no choice. */
    lemma ReadsToIsUnique(p: nat, request: nat, k: nat, m: nat)
      requires volume.Sound() && ReadsTo(p, request, k) && ReadsTo(p, request, m)
      ensures k == m
    {
      hide Stops, AtBreak;
      var atK, atM := RunStart(p, p + k), RunStart(p, p + m);
    }

    /** Everything is read exactly when the reader stops nowhere within the request. */
    lemma WholeReadIff(p: nat, request: nat, k: nat)
      requires volume.Sound() && ReadsTo(p, request, k)
      ensures k == request <==> NoStop(p, request, p + request)
      ensures Unbroken(p, p + request) ==>
                (k == request <==> request == 0 || ClusterSize() <= 16384 || !NeedsTwo(p, request))
    {
      hide AtBreak, Unbroken, NeedsTwo, FatVolume.Sound, Volume.BytesPerCluster;
      if NoStop(p, request, p + request) {
        ReadsToIsUnique(p, request, k, request);
      }
      if Unbroken(p, p + request) {
        forall x {:trigger RunStart(p, x)} | p < x < p + request ensures !RunStart(p, x) {
          NoRunStarts(p, p, p + request, x);
        }
        assert RunStart(p, p);
      }
    }

    /**
     At least half is read exactly when no run start in the first half is stuck; so it always is
     unless clusters have 32 KB.
     */
    lemma HalfReadIff(p: nat, request: nat, k: nat)
      requires volume.Sound() && ReadsTo(p, request, k)
      ensures request <= 2 * k <==>
                forall x {:trigger RunStart(p, x)} :: p <= x && RunStart(p, x) && 2 * (x - p) < request ==>
                  !(ClusterSize() > 16384 && NeedsTwo(x, request - (x - p)))
      ensures ClusterSize() <= 16384 ==> request <= 2 * k
    {
      hide AtBreak, NeedsTwo, FatVolume.Sound, Volume.BytesPerCluster;
    }

    /** The file is broken in the second half of a request, where the reader takes what is left for all there is. */
    ghost predicate LateBreak(p: nat, request: nat, q: nat)
      requires volume.Sound()
    {
      p < q < p + request && AtBreak(q) && request <= 2 * (q - p)
    }

    /** No read goes beyond such a break; and unless clusters have 32 KB nothing else ends one early. */
    lemma ShortReadIff(p: nat, request: nat, k: nat)
      requires volume.Sound() && ReadsTo(p, request, k)
      ensures forall q: nat :: LateBreak(p, request, q) ==> k <= q - p < request
      ensures ClusterSize() <= 16384 ==> (k < request <==> exists q: nat :: LateBreak(p, request, q))
    {
      hide AtBreak, NeedsTwo, FatVolume.Sound, Volume.BytesPerCluster;
      forall q: nat | LateBreak(p, request, q) ensures k <= q - p {
        assert RunStart(p, q) && Stops(p, request, q);
      }
      if k < request && ClusterSize() <= 16384 {
        assert LateBreak(p, request, p + k);
      }
    }

    /** The smallest example, for every cluster size: of two clusters that are not neighbours one is read. */
    lemma SecondClusterIsNotRead(k: nat)
      requires volume.Sound() && Break(1) && ClusterSize() < size <= 2 * ClusterSize() && ReadsTo(0, size, k)
      ensures k == ClusterSize()
    {
      hide IndexOf, WithinOf, Break, FatVolume.Sound, Volume.BytesPerCluster;
      Regular();
      AtPosition(ClusterSize(), 1, 0);
      AtPosition(0, 0, 0);
      ShortReadIff(0, size, k);
      assert LateBreak(0, size, ClusterSize());
      if 0 < k < ClusterSize() {
        AtPosition(k, 0, k);
      }
    }

    /** A whole cluster of the file. */
    lemma WholeCluster(k: nat, c: nat, p: nat)
      requires Sound() && c == Nth(first, k) && p == k * ClusterSize() && p + ClusterSize() <= size
      ensures DataRun(c, 1) && (c - 2 + 1) * ClusterSize() <= |Area()|
      ensures Content()[p..p + ClusterSize()] == Units(Area(), ClusterSize(), c - 2, 1)
    {
      hide Content, RunBytes, Area, AreaFits, FatVolume.Sound, FatVolume.Next, Volume.BytesPerCluster,
        Volume.ClusterCount, Volume.WellFormed;
      Known();
      assert DataRun(Nth(first, k), 1);
      assert RunAt(k, c, 1);
      RunSlice(k, c, 1, 0, ClusterSize(), p);
      SliceOfRun(c - 2, c, 1, 1, 0, ClusterSize());
      UnitsFit(ClusterSize(), c - 2, 1);
    }

    // -------------------------------------------------------------- seeking

    /** 64-bit signed arithmetic. */
    function Signed64(x: int): int {
      (x + 0x8000_0000_0000_0000) % 0x1_0000_0000_0000_0000 - 0x8000_0000_0000_0000
    }

    /** A seek to t starts from the beginning of the file. */
    predicate Rewinds(p: nat, t: int) {
      t < IndexOf(p) * ClusterSize()
    }

    /** How many table entries a seek from p to t reads. */
    function TableReads(p: nat, t: nat): nat {
      if IndexOf(t) < IndexOf(p) then IndexOf(t) else IndexOf(t) - IndexOf(p)
    }

    /** The cluster from which it follows the chain. */
    function StartFor(c: nat, p: nat, t: nat): nat {
      if Rewinds(p, t) then first % 0x1_0000 else c
    }

    /** One entry read, or not: a failure gives an end mark. */
    predicate ReadsLink(c: nat, failed: bool, d: nat)
      requires volume.Sound()
    {
      if failed then d >= End() else c < End() ==> volume.SameLink(d, volume.Next(c))
    }

    /** d is where following the chain from c may end when these reads of the table fail. */
    ghost predicate Walk(c: nat, failed: seq<bool>, d: nat)
      requires volume.Sound()
      decreases |failed|
    {
      if failed == [] then d == c else
      exists e: nat {:trigger Walk(c, failed[..|failed| - 1], e)} ::
        Walk(c, failed[..|failed| - 1], e) && ReadsLink(e, failed[|failed| - 1], d)
    }

    /** Some of n reads of the table may have failed on the way from c to d. */
    ghost predicate Walked(c: nat, n: nat, d: nat)
      requires volume.Sound()
    {
      exists failed: seq<bool> :: |failed| == n && Walk(c, failed, d)
    }

    /** A seek that reads no table entry; when it rewinds, the first cluster is found. */
    predicate Stays(p: nat, t: nat) {
      TableReads(p, t) == 0 && (Rewinds(p, t) ==> first < 0x1_0000)
    }

    lemma WalkOn(c: nat, failed: seq<bool>, e: nat, f: bool, d: nat)
      requires volume.Sound() && Walk(c, failed, e) && ReadsLink(e, f, d)
      ensures Walk(c, failed + [f], d)
    {
      hide FatVolume.Sound, ReadsLink;
      assert (failed + [f])[..|failed|] == failed;
    }

    lemma NoWalk(c: nat)
      requires volume.Sound()
      ensures Walk(c, [], c)
    {
    }

    /** When every read fails, one is enough to lose the chain. */
    lemma {:induction false} AllReadsFail(c: nat, n: nat) returns (failed: seq<bool>)
      requires volume.Sound() && 0 < n
      ensures |failed| == n && Walk(c, failed, 0xFFFF_FFFF)
    {
      hide FatVolume.Sound, Walk;
      var e := c;
      if n == 1 {
        failed := [];
        NoWalk(c);
      } else {
        failed := AllReadsFail(c, n - 1);
        e := 0xFFFF_FFFF;
      }
      WalkOn(c, failed, e, true, 0xFFFF_FFFF);
      failed := failed + [true];
    }

    lemma RewindsBack(p: nat, t: nat)
      requires volume.v.WellFormed()
      ensures Rewinds(p, t) <==> IndexOf(t) < IndexOf(p)
    {
      hide IndexOf, WithinOf, Volume.WellFormed, Volume.BytesPerCluster;
      Position(p);
      Position(t);
      if IndexOf(t) < IndexOf(p) {
        UnitsFit(ClusterSize(), IndexOf(t), 1);
        FewerUnitsFit(ClusterSize(), 0, IndexOf(t) + 1, IndexOf(p), IndexOf(p) * ClusterSize());
      } else {
        FewerUnitsFit(ClusterSize(), 0, IndexOf(p), IndexOf(t), IndexOf(t) * ClusterSize());
      }
    }

    lemma StayingStays(c: nat, p: nat, t: nat)
      requires Sound() && Stays(p, t) && (OnChainAt(c, p) || Rewinds(p, t))
      ensures OnChainAt(StartFor(c, p, t), t)
    {
      hide FatVolume.Sound, FatVolume.Next, IndexOf, WithinOf, Volume.BytesPerCluster;
      Known();
      RewindsBack(p, t);
    }

    /**
     A seek from the chain stays on it whatever fails if and only if it reads no entry of the table
     and need not rewind to a first cluster above 65535.
     */
    lemma SeekStaysIff(c: nat, p: nat, t: nat)
      requires Sound() && OnChainAt(c, p) && t < size
      ensures (forall d: nat :: Walked(StartFor(c, p, t), TableReads(p, t), d) ==> OnChainAt(d, t)) <==> Stays(p, t)
    {
      hide FatVolume.Sound, FatVolume.Next, IndexOf, WithinOf, Walk, TableReads, Rewinds, OnChainOf;
      Known();
      var s := StartFor(c, p, t);
      EndsAreOffChain(t);
      if TableReads(p, t) == 0 {
        OnlyStart(s);
        NoWalk(s);
        if Stays(p, t) {
          StayingStays(c, p, t);
        } else {
          HighFirstIsMissed(p, t);
          var none: seq<bool> := [];
          assert |none| == TableReads(p, t) && Walk(s, none, s) && Walked(s, TableReads(p, t), s);
        }
      } else {
        var failed := AllReadsFail(s, TableReads(p, t));
        assert Walked(s, TableReads(p, t), 0xFFFF_FFFF);
      }
    }

    lemma OnlyStart(c: nat)
      requires volume.Sound()
      ensures forall failed: seq<bool>, d: nat {:trigger Walk(c, failed, d)} :: |failed| == 0 && Walk(c, failed, d) ==>
                d == c
    {
    }

    lemma EndsAreOffChain(t: nat)
      requires Sound() && t < size
      ensures !OnChainAt(0xFFFF_FFFF, t)
    {
      if OnChainAt(0xFFFF_FFFF, t) {
        OnData(0xFFFF_FFFF, t);
        assert false;
      }
    }

    lemma HighFirstIsMissed(p: nat, t: nat)
      requires Sound() && t < size && TableReads(p, t) == 0 && Rewinds(p, t) && first >= 0x1_0000
      ensures !OnChainAt(first % 0x1_0000, t)
    {
      hide FatVolume.Sound, FatVolume.Next, IndexOf, WithinOf, Volume.BytesPerCluster, Volume.WellFormed;
      Known();
      RewindsBack(p, t);
      if OnChainAt(first % 0x1_0000, t) {
        OnData(first % 0x1_0000, t);
        assert false;
      }
    }

    /** The chain that begins with `start` does not end before position t. */
    ghost predicate Leads(start: nat, t: nat)
      requires volume.Sound()
    {
      forall j {:trigger Nth(start, j)} :: 0 <= j < IndexOf(t) ==> Nth(start, j) < End()
    }

    lemma FirstLeads(t: nat)
      requires Sound() && t < size
      ensures Leads(first, t)
    {
      hide FatVolume.Next, FatVolume.Sound, Volume.WellFormed, Volume.BytesPerCluster, IndexOf, WithinOf;
      Known();
      Position(t);
      forall j {:trigger Nth(first, j)} | 0 <= j < IndexOf(t) ensures Nth(first, j) < End() {
        FewerUnitsFit(ClusterSize(), 0, j, IndexOf(t), IndexOf(t) * ClusterSize());
        assert DataRun(Nth(first, j), 1);
      }
    }

    lemma NextCluster(start: nat, c: nat, p: nat, i: nat, next: nat, t: nat)
      requires Sound() && p == i * ClusterSize() && OnChainOf(start, c, p) && Leads(start, t) && p + ClusterSize() <= t
      requires c < End() ==> volume.SameLink(next, volume.Next(c))
      ensures OnChainOf(start, next, p + ClusterSize())
    {
      hide FatVolume.Next, FatVolume.Sound, AreaFits, IndexOf, WithinOf, Volume.WellFormed, Volume.BytesPerCluster;
      Known();
      AtPosition(p, i, 0);
      UnitsFit(ClusterSize(), i, 1);
      AtPosition(p + ClusterSize(), i + 1, 0);
      NoEarlier(p + ClusterSize(), t);
    }

    /** Moving inside a cluster. */
    lemma SameCluster(start: nat, c: nat, p: nat, i: nat, t: nat)
      requires Sound() && p == i * ClusterSize() && p <= t < p + ClusterSize() && OnChainOf(start, c, p)
      ensures OnChainOf(start, c, t)
    {
      hide FatVolume.Next, FatVolume.Sound, AreaFits, IndexOf, WithinOf, Volume.WellFormed, Volume.BytesPerCluster;
      AtPosition(p, i, 0);
      AtPosition(t, i, t - p);
    }

    /** Along a chain from the beginning of a cluster to the cluster that holds the target. */
    method Follow(target: nat, ghost i: nat, ghost chain: nat) returns (ghost failed: seq<bool>)
      requires Sound() && volume.Valid() && cluster < 0x1_0000_0000
      requires cursor == i * ClusterSize() && cursor <= target < size
      modifies this`cursor, this`cluster, volume.device.cache, volume.device.cache.items, volume.device.env
      ensures Valid() && old(volume.device.env.asked) <= volume.device.env.asked
      ensures cursor == target
      ensures volume.device.env.Smooth(old(volume.device.env.asked), volume.device.env.asked) ==>
                OnChainOf(chain, old(cluster), old(cursor)) && Leads(chain, target) ==>
                      OnChainOf(chain, cluster, cursor)
      ensures |failed| == IndexOf(target) - i && Walk(old(cluster), failed, cluster)
      ensures volume.device.env.Dead(old(volume.device.env.asked)) && failed != [] ==> cluster == 0xFFFF_FFFF
    {
      hide Oracle.Dead, Walk, ReadsLink, FatVolume.SameLink, Sound, IndexOf, WithinOf, OnChainOf, Leads, AreaFits,
        FatVolume.Sound, FatVolume.Valid, FatVolume.Next, Volume.WellFormed, Volume.BytesPerCluster, EndCluster,
        Oracle.Smooth;
      Known();
      ghost var p, c, start, j := cursor, cluster, volume.device.env.asked, i;
      ghost var good := OnChainOf(chain, c, p) && Leads(chain, target);
      failed := [];
      NoWalk(cluster);
      while cursor + ClusterSize() <= target
        invariant volume.Valid() && cluster < 0x1_0000_0000 && start <= volume.device.env.asked
        invariant p <= cursor <= target && cursor == j * ClusterSize()
        invariant volume.device.env.Smooth(start, volume.device.env.asked) && good ==> OnChainOf(chain, cluster, cursor)
        invariant |failed| == j - i && Walk(c, failed, cluster)
        invariant volume.device.env.Dead(start) && failed != [] ==> cluster == 0xFFFF_FFFF
        decreases target - cursor
      {
        ghost var d, q, before := cluster, cursor, volume.device.env.asked;
        cluster := volume.GetNextCluster(cluster);
        ghost var f := ReadOutcome(d, cluster);
        WalkOn(c, failed, d, f, cluster);
        failed := failed + [f];
        if volume.device.env.Dead(start) {
          volume.device.env.StillDead(start, before);
        }
        if good && volume.device.env.Smooth(start, volume.device.env.asked) {
          volume.device.env.SmoothParts(start, before, volume.device.env.asked);
          NextCluster(chain, d, q, j, cluster, target);
        }
        UnitsFit(ClusterSize(), j, 1);
        j := j + 1;
        cursor := cursor + ClusterSize();
      }
      if good && volume.device.env.Smooth(start, volume.device.env.asked) {
        SameCluster(chain, cluster, cursor, j, target);
      }
      AtPosition(target, j, target - cursor);
      cursor := target;
    }

    /** Whether the read of c's entry that gave d has failed. */
    lemma ReadOutcome(c: nat, d: nat) returns (failed: bool)
      requires volume.Sound() && (c < End() ==> d == volume.Next(c) || d >= End())
      ensures ReadsLink(c, failed, d)
    {
      failed := c < End() && d != volume.Next(c);
    }

    /**
     _SetFilePointer.  A seek that would leave the file is refused and changes nothing.  Any other
     puts the cursor where it should be.  When nothing fails it stays on the chain if it need not
     rewind; if it does, it follows the chain that begins with the low half of the first cluster's
     number, from whatever state.  When some of its reads of the table fail, it ends on a walk on
     which they fail, and answers TRUE all the same.
     */
    method SetFilePointer(offset: int, whence: Whence) returns (ok: bool)
      requires Valid() && -0x8000_0000_0000_0000 <= offset < 0x8000_0000_0000_0000
      modifies this`cursor, this`cluster, volume.device.cache, volume.device.cache.items, volume.device.env
      ensures Valid() && old(volume.device.env.asked) <= volume.device.env.asked
      ensures ok <==> 0 <= Target(size, old(cursor), offset, whence) < size
      ensures !ok ==> cursor == old(cursor) && cluster == old(cluster)
      ensures !ok ==>
                unchanged(volume.device.cache) && unchanged(volume.device.cache.items) && unchanged(volume.device.env)
      ensures ok ==> cursor == Target(size, old(cursor), offset, whence)
      ensures ok && volume.device.env.Smooth(old(volume.device.env.asked), volume.device.env.asked) ==>
                if Rewinds(old(cursor), cursor) then Leads(first % 0x1_0000, cursor) ==>
                      OnChainOf(first % 0x1_0000, cluster, cursor)
                else OnChainAt(old(cluster), old(cursor)) ==> OnChainAt(cluster, cursor)
      ensures ok && volume.device.env.Smooth(old(volume.device.env.asked), volume.device.env.asked) ==>
                Rewinds(old(cursor), cursor) && first < 0x1_0000 ==> OnChainAt(cluster, cursor)
      ensures ok && Rewinds(old(cursor), cursor) && cursor < ClusterSize() ==> cluster == first % 0x1_0000
      ensures ok ==> Walked(StartFor(old(cluster), old(cursor), cursor), TableReads(old(cursor), cursor), cluster)
      ensures ok && volume.device.env.Dead(old(volume.device.env.asked)) && 0 < TableReads(old(cursor), cursor) ==>
                cluster == 0xFFFF_FFFF
      ensures ok && Stays(old(cursor), cursor)
              && (OnChainAt(old(cluster), old(cursor)) || Rewinds(old(cursor), cursor)) ==>
                OnChainAt(cluster, cursor)
    {
      hide Walk, TableReads, Stays, Oracle.Dead, IndexOf, WithinOf, OnChainOf, Leads, AreaFits, FatVolume.Sound,
        FatVolume.Valid, FatVolume.Next, Volume.WellFormed, Volume.BytesPerCluster, EndCluster, Oracle.Smooth;
      ghost var c, p := cluster, cursor;
      var target := Destination(offset, whence);
      if target < 0 || target >= size {
        return false;
      }
      ok := true;
      Known();
      Position(cursor);
      FirstLeads(target);
      ghost var i, chain := IndexOf(cursor), first;
      if OnChainAt(cluster, cursor) {
        StartOfCluster(cluster, cursor);
      }
      StartOfChain(first % 0x1_0000);
      cursor := IndexOf(cursor) * ClusterSize();
      if target < cursor {
        cursor := 0;
        cluster := first % 0x1_0000;
        i, chain := 0, first % 0x1_0000;
      }
      ghost var failed := Follow(target, i, chain);
      ReadsOf(p, target);
      OnlyStart(StartFor(c, p, target));
      if Stays(p, target) && (OnChainAt(c, p) || Rewinds(p, target)) {
        NoReads(p, target);
        StayingStays(c, p, target);
      }
    }

    lemma ReadsOf(p: nat, t: nat)
      requires volume.v.WellFormed()
      ensures TableReads(p, t) == if Rewinds(p, t) then IndexOf(t) else IndexOf(t) - IndexOf(p)
      ensures Rewinds(p, t) && t < ClusterSize() ==> TableReads(p, t) == 0
    {
      hide IndexOf, WithinOf, Volume.WellFormed, Volume.BytesPerCluster;
      RewindsBack(p, t);
      if t < ClusterSize() {
        AtPosition(t, 0, t);
      }
    }

    lemma NoReads(p: nat, t: nat)
      requires Stays(p, t)
      ensures TableReads(p, t) == 0
    {
    }

    method Destination(offset: int, whence: Whence) returns (target: int)
      requires Sound() && cursor <= size && -0x8000_0000_0000_0000 <= offset < 0x8000_0000_0000_0000
      ensures 0 <= target < size <==> 0 <= Target(size, cursor, offset, whence) < size
      ensures 0 <= target < size ==> target == Target(size, cursor, offset, whence)
    {
      hide AreaFits, FatVolume.Sound, Nth, DataRun;
      target := offset;
      if whence == FromCurrent {
        target := Signed64(target + cursor);
      } else if whence == FromEnd {
        target := Signed64(size - target);
      }
    }

    lemma StartOfChain(start: nat)
      requires Sound()
      ensures OnChainOf(start, start, 0)
    {
      hide FatVolume.Next, FatVolume.Sound, Volume.BytesPerCluster;
      Known();
      AtPosition(0, 0, 0);
    }

    lemma StartOfCluster(c: nat, p: nat)
      requires Sound() && OnChainAt(c, p)
      ensures OnChainAt(c, IndexOf(p) * ClusterSize())
    {
      hide IndexOf, WithinOf, FatVolume.Next, FatVolume.Sound, AreaFits, Volume.WellFormed, Volume.BytesPerCluster;
      Known();
      AtPosition(IndexOf(p) * ClusterSize(), IndexOf(p), 0);
    }

    /** Every cluster of the file is found by following the chain from this one. */
    ghost predicate LeadsTo(start: nat)
      requires volume.Sound()
    {
      forall k {:trigger Nth(start, k)} :: 0 <= k && k * ClusterSize() < size ==> Nth(start, k) == Nth(first, k)
    }

    /** Rewinding finds the file's own chain exactly when the first cluster's number has no high half. */
    lemma RewindIsRightIff()
      requires Sound() && 0 < size
      ensures LeadsTo(first % 0x1_0000) <==> first < 0x1_0000
    {
      hide FatVolume.Next, FatVolume.Sound, AreaFits, Volume.WellFormed, Volume.BytesPerCluster, DataRun;
      var low := first % 0x1_0000;
      if LeadsTo(low) {
        assert 0 * ClusterSize() == 0;
        assert Nth(low, 0) == Nth(first, 0);
      }
    }

    // -------------------------------------------------------------- any use of the file

    /** What one call does to the cursor of a flat sequence of bytes, and what it delivers. */
    ghost predicate Serves(op: FileOp, p: nat, q: nat, data: seq<byte>)
      requires Sound()
    {
      match op
      case Read(n) => p <= q <= size && ReadsTo(p, Clamped(p, n), q - p) && data == Content()[p..q]
      case Seek(offset, whence) =>
        var t := Target(size, p, offset, whence);
        q == (if 0 <= t < size then t else p) && data == []
    }

    /**
     Any sequence of reads and seeks.  When nothing fails, and rewinding finds the file, it is
     served as by a cursor over the file's bytes.
     */
    method Use(ops: seq<FileOp>) returns (positions: seq<nat>, outputs: seq<seq<byte>>)
      requires Valid() && first < 0x1_0000 && OnChainAt(cluster, cursor)
      requires forall i :: 0 <= i < |ops| ==> match ops[i]
                 case Read(n) => n < 0x1_0000_0000
                 case Seek(offset, _) => -0x8000_0000_0000_0000 <= offset < 0x8000_0000_0000_0000
      modifies this`cursor, this`cluster, volume.device.cache, volume.device.cache.items, volume.device.env
      ensures Valid() && |positions| == |ops| + 1 && |outputs| == |ops| && positions[0] == old(cursor)
      ensures positions[|ops|] == cursor
      ensures volume.device.env.Smooth(old(volume.device.env.asked), volume.device.env.asked) ==>
                OnChainAt(cluster, cursor) && forall i :: 0 <= i < |ops| ==>
                      Serves(ops[i], positions[i], positions[i + 1], outputs[i])
    {
      hide Sound, IndexOf, WithinOf, OnChainAt, ReadsTo, Got, Content, Serves, AreaFits, FatVolume.Valid,
        Volume.BytesPerCluster, Oracle.Smooth;
      Known();
      positions, outputs := [cursor], [];
      ghost var start := volume.device.env.asked;
      for i := 0 to |ops|
        invariant Valid() && start <= volume.device.env.asked
        invariant |positions| == i + 1 && |outputs| == i && positions[0] == old(cursor) && positions[i] == cursor
        invariant volume.device.env.Smooth(start, volume.device.env.asked) ==> OnChainAt(cluster, cursor)
        invariant volume.device.env.Smooth(start, volume.device.env.asked) ==>
                    forall j :: 0 <= j < i ==> Serves(ops[j], positions[j], positions[j + 1], outputs[j])
      {
        ghost var p, c, before := cursor, cluster, volume.device.env.asked;
        var data := UseOnce(ops[i]);
        if volume.device.env.Smooth(start, volume.device.env.asked) {
          volume.device.env.SmoothParts(start, before, volume.device.env.asked);
        }
        positions, outputs := positions + [cursor], outputs + [data];
      }
    }

    method UseOnce(op: FileOp) returns (data: seq<byte>)
      requires Valid() && first < 0x1_0000
      requires match op
               case Read(n) => n < 0x1_0000_0000
               case Seek(offset, _) => -0x8000_0000_0000_0000 <= offset < 0x8000_0000_0000_0000
      modifies this`cursor, this`cluster, volume.device.cache, volume.device.cache.items, volume.device.env
      ensures Valid() && old(volume.device.env.asked) <= volume.device.env.asked
      ensures volume.device.env.Smooth(old(volume.device.env.asked), volume.device.env.asked) ==>
                OnChainAt(old(cluster), old(cursor)) ==>
                OnChainAt(cluster, cursor) && Serves(op, old(cursor), cursor, data)
    {
      hide Sound, IndexOf, WithinOf, OnChainAt, ReadsTo, Content, Spliced, AreaFits, FatVolume.Valid,
        Volume.BytesPerCluster, Oracle.Smooth;
      Known();
      data := [];
      match op
      case Read(n) =>
        var buffer := new byte[Clamped(cursor, n)](_ => 0);
        ghost var p, c := cursor, cluster;
        ghost var b0 := buffer[..];
        var k := ReadFile(buffer, 0, n);
        data := buffer[..k];
        if OnChainAt(c, p) {
          SplicedFront(b0, Content()[p..p + k]);
        }
      case Seek(offset, whence) =>
        var _ := SetFilePointer(offset, whence);
    }
  }
}

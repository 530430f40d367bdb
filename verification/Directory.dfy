/** FindDirEntry (src/fat.c): the search of a directory's clusters, entry by entry. */
module Directory {
  import opened Bytes
  import opened Common
  import opened Env
  import opened SectorCache
  import opened SectorIo
  import opened FatTable
  import opened FatFile
  import opened LongNames

  /** A directory's bytes as entries. */
  function EntriesOf(bytes: seq<byte>): (r: seq<Entry>)
    ensures |r| == |bytes| / 32
  {
    seq(|bytes| / 32, x requires 0 <= x < |bytes| / 32 => bytes[32 * x..32 * x + 32])
  }

  /** No byte is lost or moved. */
  lemma EntriesAreTheBytes(bytes: seq<byte>, p: nat)
    requires p / 32 < |bytes| / 32
    ensures p < |bytes| && EntriesOf(bytes)[p / 32][p % 32] == bytes[p]
  {
  }

  lemma EntriesOfPart(bytes: seq<byte>, base: nat, m: nat)
    requires 32 * (base + m) <= |bytes|
    ensures EntriesOf(bytes)[base..base + m] == EntriesOf(bytes[32 * base..32 * (base + m)])
  {
    var part := bytes[32 * base..32 * (base + m)];
    forall x | 0 <= x < m ensures EntriesOf(part)[x] == EntriesOf(bytes)[base + x] {
      SliceOfSlice(bytes, 32 * base, 32 * (base + m), 32 * x, 32 * x + 32);
    }
  }

  /** What the verdict on entry i means for a scan that has come to it. */
  lemma ScanStep(st: State, es: seq<Entry>, i: nat, target: seq<byte>, oem: seq<byte>)
    requires st.Valid() && AllFit(es) && i < |es|
    ensures Fits(es[i])
    ensures match Step(st, es[i], target, oem).1
      case Stop => Scan(st, es, i, target, oem) == NotFound
      case FoundLong => Scan(st, es, i, target, oem) == ByLongName(i)
      case FoundShort => Scan(st, es, i, target, oem) == ByShortName(i)
      case Skip => Scan(st, es, i, target, oem) == Scan(Step(st, es[i], target, oem).0, es, i + 1, target, oem)
  {
    hide Step, Fits;
  }

  /** The local variables of FindDirEntry that live from entry to entry. */
  class Search {
    const name: array<byte>
    const target: seq<byte>
    const oem: seq<byte>
    var last: nat
    var next: nat
    var checksum: byte

    constructor (target: seq<byte>, oem: seq<byte>)
      ensures this.target == target && this.oem == oem && fresh(name)
      ensures Value().Valid() && last == 0
    {
      this.target, this.oem := target, oem;
      name := new byte[256];
      last, next, checksum := 0, 0, 0;
    }

    ghost function Value(): State
      reads this, name
    {
      State(last, next, checksum, name[..])
    }

    /** A character is 13 bytes from the next entry's; the two ends of Filename are checked for. */
    method CopyChars(e: Entry)
      requires next <= 19 && name.Length == 256
      modifies name
      ensures name[..] == Store(old(name[..]), next, e, next + 1 == last)
    {
      var chars, n := Chars(e), Stored(next);
      Memcpy(name, 13 * next, chars[..n]);
      if next + 1 == last {
        name[13 * next + n] := 0;
      }
    }

    method VisitLong(e: Entry)
      requires Value().Valid() && (HasFlag(e[0]) ==> Plain(e[0]) <= 20 || Plain(e[0]) > 63)
      modifies this, name
      ensures Value() == LongStep(old(Value()), e)
    {
      hide Store, Chars;
      if (next != last) != HasFlag(e[0]) {
        var ord := e[0];
        if last == 0 {
          ord := Plain(ord);
          last := ord;
          checksum := LongChecksum(e);
          next := last;
        }
        if 0 < next <= 0x3F && ord == next && IsOrdinary(e) && LongChecksum(e) == checksum {
          next := next - 1;
          CopyChars(e);
          return;
        }
      }
      last, next := 0, 0;
    }

    /** One entry of the directory. */
    method Visit(raw: Entry) returns (v: Verdict, entry: Entry)
      requires Value().Valid() && Fits(raw)
      modifies this, name
      ensures v == Step(old(Value()), raw, target, oem).1
      ensures v == Skip ==> Value() == Step(old(Value()), raw, target, oem).0
      ensures v in {FoundLong, FoundShort} ==> entry == Patched(raw)
    {
      hide LongStep, Store, Chars, Sum, SameName, CString;
      entry := raw;
      if raw[0] == 0 {
        return Stop, raw;
      }
      if raw[0] == 0xE5 {
        return Skip, raw;
      }
      if raw[0] == 0x05 {
        entry := raw[0 := 0xE5];
      }
      if IsLong(entry) {
        VisitLong(entry);
        return Skip, entry;
      }
      var matches := false;
      if last != 0 {
        var sum := CheckSum(entry[..11]);
        if next != 0 || sum != checksum {
          last := 0;
        } else {
          matches := SameName(CString(name[..]), target);
          v := FoundLong;
        }
      }
      if last == 0 {
        matches := ShortMatch(oem, entry);
        v := FoundShort;
      }
      if matches {
        return v, entry;
      }
      last, next := 0, 0;
      return Skip, entry;
    }

    /** The entries of one cluster, which are entries base on of the directory. */
    method VisitCluster(tmp: array<byte>, ghost es: seq<Entry>, ghost base: nat)
      returns (v: Verdict, entry: Entry, ghost r: Result)
      requires Value().Valid() && AllFit(es) && tmp != name && tmp.Length % 32 == 0
      requires base + tmp.Length / 32 <= |es| && es[base..base + tmp.Length / 32] == EntriesOf(tmp[..])
      modifies this, name
      ensures r == Scan(old(Value()), es, base, target, oem)
      ensures v == Skip ==> Value().Valid() && r == Scan(Value(), es, base + tmp.Length / 32, target, oem)
      ensures v != Skip ==> (v == Stop) == (r == NotFound)
      ensures r != NotFound && v != Skip ==> entry == Patched(es[r.index])
    {
      hide Step, Fits, AllFit, Scan, EntriesOf, State.Valid;
      r := Scan(Value(), es, base, target, oem);
      v, entry := Skip, seq(32, _ => 0);
      var i := 0;
      ghost var x: nat := 0;
      while i < tmp.Length
        invariant v == Skip && i == 32 * x <= tmp.Length && Value().Valid()
        invariant r == Scan(Value(), es, base + x, target, oem)
      {
        ghost var st := Value();
        EntryHere(tmp[..], es, base, x);
        ScanStep(st, es, base + x, target, oem);
        v, entry := Visit(tmp[i..i + 32]);
        if v != Skip {
          return;
        }
        StepIsValid(st, es[base + x], target, oem);
        x := x + 1;
        i := i + 32;
      }
    }

    lemma EntryHere(bytes: seq<byte>, es: seq<Entry>, base: nat, x: nat)
      requires 32 * x < |bytes| && |bytes| % 32 == 0 && base + |bytes| / 32 <= |es|
      requires es[base..base + |bytes| / 32] == EntriesOf(bytes)
      ensures 32 * x + 32 <= |bytes| && base + x < |es| && es[base + x] == bytes[32 * x..32 * x + 32]
    {
      assert es[base + x] == es[base..base + |bytes| / 32][x];
    }

    lemma StepIsValid(st: State, raw: Entry, target: seq<byte>, oem: seq<byte>)
      requires st.Valid() && Fits(raw)
      ensures Step(st, raw, target, oem).0.Valid()
    {
    }

    /** Cluster k of the directory holds as many entries from number `base` on. */
    lemma ClusterEntries(dir: FatFile, k: nat, c: nat, base: nat, m: nat)
      requires dir.Sound() && c == dir.Nth(dir.first, k) && dir.ClusterSize() == 32 * m
      requires 32 * base == k * dir.ClusterSize()
      requires 32 * base + dir.ClusterSize() <= dir.size
      ensures dir.DataRun(c, 1) && (c - 2 + 1) * dir.ClusterSize() <= |dir.Area()|
      ensures base + m <= |EntriesOf(dir.Content())|
      ensures EntriesOf(dir.Content())[base..base + m] == EntriesOf(Units(dir.Area(), dir.ClusterSize(), c - 2, 1))
    {
      hide FatFile.Sound, FatFile.Content, FatFile.Area, FatFile.DataRun, FatFile.AreaFits, FatFile.Nth, EntriesOf,
        Units;
      dir.Known();
      dir.WholeCluster(k, c, 32 * base);
      EntriesOfPart(dir.Content(), base, m);
    }

    /** One cluster of a directory: read, and its entries visited. */
    method VisitNext(dir: FatFile, cluster: nat, buffer: array<byte>, ghost k: nat, ghost base: nat, ghost m: nat)
      returns (ok: bool, v: Verdict, entry: Entry, ghost r: Result)
      requires dir.Sound() && dir.volume.Valid() && cluster == dir.Nth(dir.first, k)
      requires dir.ClusterSize() == 32 * m && 32 * base == k * dir.ClusterSize()
      requires 32 * base + dir.ClusterSize() <= dir.size
      requires Value().Valid() && AllFit(EntriesOf(dir.Content())) && buffer != name
      requires buffer.Length == dir.ClusterSize()
      modifies this, name, buffer, dir.volume.device.cache, dir.volume.device.cache.items, dir.volume.device.env
      ensures dir.volume.Valid() && old(dir.volume.device.env.asked) <= dir.volume.device.env.asked
      ensures dir.volume.device.env.Smooth(old(dir.volume.device.env.asked), dir.volume.device.env.asked) ==> ok
      ensures base + m <= |EntriesOf(dir.Content())|
      ensures ok ==> r == Scan(old(Value()), EntriesOf(dir.Content()), base, target, oem)
      ensures ok && v == Skip ==> Value().Valid() && r == Scan(Value(), EntriesOf(dir.Content()), base + m, target, oem)
      ensures ok && v != Skip ==> (v == Stop) == (r == NotFound)
      ensures ok && v != Skip && r != NotFound ==> entry == Patched(EntriesOf(dir.Content())[r.index])
    {
      hide FatFile.Sound, FatFile.Content, FatFile.Area, FatFile.DataRun, FatFile.AreaFits, FatFile.Nth,
        FatVolume.Valid, FatVolume.Sound, Volume.WellFormed, Volume.BytesPerCluster, Volume.ClusterCount,
        Oracle.Smooth, EntriesOf, Units, Scan, AllFit, State.Valid, Step;
      v, entry, r := Skip, seq(32, _ => 0), NotFound;
      ClusterEntries(dir, k, cluster, base, m);
      DataIsAtLeastTwo(dir, cluster);
      ok := dir.ReadClusters(cluster, 1, buffer);
      if ok {
        v, entry, r := VisitCluster(buffer, EntriesOf(dir.Content()), base);
      }
    }

    lemma DataIsAtLeastTwo(dir: FatFile, c: nat)
      requires dir.DataRun(c, 1)
      ensures 2 <= c
    {
    }

    /** The numbers behind a walk along n clusters. */
    lemma NextBase(cs: nat, m: nat, k: nat, n: nat, base: nat)
      requires cs == 32 * m && 32 * base == k * cs && k < n
      ensures 32 * base + cs <= n * cs && 32 * (base + m) == (k + 1) * cs
    {
      UnitsFit(cs, k, 1);
      FewerUnitsFit(cs, 0, k + 1, n, n * cs);
    }

    lemma ClusterIsOfEntries(dir: FatFile) returns (m: nat)
      requires dir.Sound()
      ensures dir.ClusterSize() == 32 * m && 0 < m <= 1024
    {
      m := dir.ClusterSize() / 32;
    }

    lemma OnTheWay(dir: FatFile, n: nat, k: nat)
      requires dir.Sound() && dir.size == n * dir.ClusterSize() && k < n
      ensures 2 <= dir.Nth(dir.first, k) < dir.End() < 0x1_0000_0000
    {
      hide Volume.BytesPerCluster, FatVolume.Next, FatVolume.Sound;
      dir.Known();
      UnitsFit(dir.ClusterSize(), k, 1);
      FewerUnitsFit(dir.ClusterSize(), 0, k + 1, n, n * dir.ClusterSize());
      assert dir.DataRun(dir.Nth(dir.first, k), 1);
    }

    lemma Linked(dir: FatFile, k: nat)
      requires dir.volume.Sound()
      ensures dir.Nth(dir.first, 0) == dir.first && dir.Nth(dir.first, k + 1) == dir.volume.Next(dir.Nth(dir.first, k))
    {
      hide FatVolume.Next, FatVolume.Sound;
    }

    lemma EndOfScan(st: State, es: seq<Entry>, target: seq<byte>, oem: seq<byte>)
      requires st.Valid() && AllFit(es)
      ensures Scan(st, es, |es|, target, oem) == NotFound
    {
    }

    lemma FindsFromHere(es: seq<Entry>)
      requires Value().Valid() && AllFit(es)
      ensures last == 0 ==> FindsFirst(es, Scan(Value(), es, 0, target, oem), target, oem)
    {
      if last == 0 {
        ScanFindsFirst(Value(), es, target, oem);
      }
    }

    /** The clusters one by one: what they come to is a scan of all entries in one sequence. */
    method WalkClusters(dir: FatFile, ghost n: nat) returns (found: bool, entry: Entry, ghost r: Result)
      requires dir.Sound() && dir.volume.Valid() && dir.size == n * dir.ClusterSize() && 1 <= n
      requires dir.Nth(dir.first, n) >= dir.End()
      requires Value().Valid() && AllFit(EntriesOf(dir.Content()))
      modifies this, name, dir.volume.device.cache, dir.volume.device.cache.items, dir.volume.device.env
      ensures dir.volume.Valid() && old(dir.volume.device.env.asked) <= dir.volume.device.env.asked
      ensures found == (r != NotFound)
      ensures found ==> r.index < |EntriesOf(dir.Content())| && entry == Patched(EntriesOf(dir.Content())[r.index])
      ensures r == Scan(old(Value()), EntriesOf(dir.Content()), 0, target, oem)
              || (r == NotFound &&
                  !dir.volume.device.env.Smooth(old(dir.volume.device.env.asked), dir.volume.device.env.asked))
    {
      hide FatFile.Sound, FatFile.Content, FatFile.Area, FatFile.DataRun, FatFile.AreaFits, FatFile.Nth,
        FatVolume.Valid, FatVolume.Sound, FatVolume.Next, Volume.WellFormed, Volume.BytesPerCluster,
        Volume.ClusterCount, EndCluster, Oracle.Smooth, EntriesOf, Units, Scan, AllFit, State.Valid, Step, Value,
        Patched, Device.Valid;
      found, entry, r := false, seq(32, _ => 0), NotFound;
      dir.Known();
      ghost var m := ClusterIsOfEntries(dir);
      ghost var start, all := dir.volume.device.env.asked, Scan(Value(), EntriesOf(dir.Content()), 0, target, oem);
      var ok := dir.volume.device.env.Malloc(dir.ClusterSize());
      if !ok {
        dir.volume.device.env.FailureShows(start, start, start + 1);
        return;
      }
      var buffer := new byte[dir.ClusterSize()](_ => 0);
      var cluster := dir.first;
      ghost var k: nat, base: nat := 0, 0;
      Linked(dir, 0);
      while cluster < dir.End()
        invariant dir.volume.Valid() && start <= dir.volume.device.env.asked && Value().Valid()
        invariant k <= n && 32 * base == k * dir.ClusterSize()
        invariant cluster == dir.Nth(dir.first, k) || cluster >= dir.End()
        invariant dir.volume.device.env.Smooth(start, dir.volume.device.env.asked) ==>
                  dir.volume.SameLink(cluster, dir.Nth(dir.first, k))
        invariant base <= |EntriesOf(dir.Content())|
        invariant all == Scan(Value(), EntriesOf(dir.Content()), base, target, oem)
        decreases n - k
      {
        ghost var before := dir.volume.device.env.asked;
        NextBase(dir.ClusterSize(), m, k, n, base);
        OnTheWay(dir, n, k);
        var v;
        ok, v, entry, r := VisitNext(dir, cluster, buffer, k, base, m);
        ghost var between := dir.volume.device.env.asked;
        if !ok {
          r := NotFound;
          if dir.volume.device.env.Smooth(start, between) {
            dir.volume.device.env.SmoothParts(start, before, between);
            assert false;
          }
          return;
        }
        if v != Skip {
          found := v != Stop;
          return;
        }
        Linked(dir, k);
        cluster := dir.volume.GetNextCluster(cluster);
        if dir.volume.device.env.Smooth(start, dir.volume.device.env.asked) {
          dir.volume.device.env.SmoothParts(start, between, dir.volume.device.env.asked);
        }
        k, base := k + 1, base + m;
      }
      r := NotFound;
      if dir.volume.device.env.Smooth(start, dir.volume.device.env.asked) {
        if k < n {
          OnTheWay(dir, n, k);
          assert false;
        }
        EndOfScan(Value(), EntriesOf(dir.Content()), target, oem);
      }
    }

    /**
     The search of a directory along its chain of clusters: the result is that of a scan of all
     its entries in one sequence, wherever clusters end, which is the first entry that has the
     long or short name searched; a failure can only make it NotFound.
     */
    method FindDirEntry(dir: FatFile, ghost n: nat) returns (found: bool, entry: Entry, ghost r: Result)
      requires dir.Sound() && dir.volume.Valid() && dir.size == n * dir.ClusterSize() && 1 <= n
      requires dir.Nth(dir.first, n) >= dir.End()
      requires Value().Valid() && AllFit(EntriesOf(dir.Content()))
      modifies this, name, dir.volume.device.cache, dir.volume.device.cache.items, dir.volume.device.env
      ensures dir.volume.Valid() && old(dir.volume.device.env.asked) <= dir.volume.device.env.asked
      ensures found == (r != NotFound)
      ensures found ==> r.index < |EntriesOf(dir.Content())| && entry == Patched(EntriesOf(dir.Content())[r.index])
      ensures r == Scan(old(Value()), EntriesOf(dir.Content()), 0, target, oem)
              || (r == NotFound &&
                  !dir.volume.device.env.Smooth(old(dir.volume.device.env.asked), dir.volume.device.env.asked))
      ensures old(last) == 0 && (r != NotFound ||
                dir.volume.device.env.Smooth(old(dir.volume.device.env.asked), dir.volume.device.env.asked)) ==>
                FindsFirst(EntriesOf(dir.Content()), r, target, oem)
    {
      hide FatFile.Sound, FatFile.Content, FatVolume.Valid, Oracle.Smooth, EntriesOf, Scan, AllFit, State.Valid,
        Value, FindsFirst;
      FindsFromHere(EntriesOf(dir.Content()));
      found, entry, r := WalkClusters(dir, n);
    }
  }
}

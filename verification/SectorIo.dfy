/**
 ReadSector of src/io.c: sector reads of a device (a partition of a drive) through its cache.
 */
module SectorIo {
  import opened Arith
  import opened Bytes
  import opened Common
  import opened Env
  import opened Drive
  import opened SectorCache

  const MAX_READ_TRY := 8

  datatype Whence = FromStart | FromCurrent | FromEnd

  /** Where a seek would go, in exact arithmetic. */
  function Target(size: int, cursor: int, offset: int, whence: Whence): int {
    match whence
    case FromStart => offset
    case FromCurrent => cursor + offset
    case FromEnd => size - offset
  }

  /** An offset from the end counts backwards. */
  lemma TargetIs(size: nat, cursor: nat, offset: int)
    ensures Target(size, cursor, offset, FromStart) == offset
    ensures Target(size, cursor, offset, FromCurrent) - cursor == offset
    ensures Target(size, cursor, offset, FromEnd) + offset == size
  {
  }

  /**
   Between the histories h and h2 the cache was touched for sectors in [lo, hi) only, and for
   all of [lo, all).
   */
  ghost predicate Touched(h: seq<nat>, h2: seq<nat>, lo: nat, hi: nat, all: nat) {
    && h <= h2
    && (forall i :: |h| <= i < |h2| ==> lo <= h2[i] < hi)
    && (forall t :: lo <= t < all ==> t in h2[|h|..])
  }

  lemma NothingTouched(h: seq<nat>, lo: nat, hi: nat)
    ensures Touched(h, h, lo, hi, lo)
  {
  }

  lemma OneTouched(h: seq<nat>, sector: nat, n: nat)
    requires 0 < n
    ensures Touched(h, h + [sector], sector, sector + n, sector)
    ensures Touched(h, h + [sector], sector, sector + n, sector + 1)
  {
  }

  lemma TouchedFurther(h: seq<nat>, h1: seq<nat>, h2: seq<nat>)
    requires h <= h1 <= h2
    ensures h <= h2 && h2[|h|..] == h1[|h|..] + h2[|h1|..]
  {
  }

  lemma TouchedOn(h: seq<nat>, h1: seq<nat>, h2: seq<nat>, lo: nat, mid: nat, to: nat, hi: nat, done: nat, all: nat)
    requires lo <= mid && to <= hi && done <= mid && Touched(h, h1, lo, hi, done) && Touched(h1, h2, mid, to, all)
    ensures Touched(h, h2, lo, hi, if done < mid then done else all)
  {
    TouchedFurther(h, h1, h2);
    forall i | |h| <= i < |h2| ensures lo <= h2[i] < hi {
      assert i < |h1| ==> h2[i] == h1[i];
    }
    forall t | lo <= t < (if done < mid then done else all) ensures t in h2[|h|..] {
      assert t in h1[|h|..] || t in h2[|h1|..];
    }
  }

  class Device {
    const drive: Drive
    const startSector: nat
    const nSectors: nat
    const cache: Cache
    const env: Oracle

    /** A device as OpenDevice makes it: its sectors lie on the drive, its cache is empty. */
    constructor (drive: Drive, startSector: nat, nSectors: nat)
      requires drive.Valid() && startSector + nSectors <= drive.info.nTotalSectors
      ensures this.drive == drive && this.startSector == startSector && this.nSectors == nSectors
      ensures env == drive.bios && fresh(cache) && fresh(cache.items) && Valid() && cache.history == []
    {
      this.drive, this.startSector, this.nSectors := drive, startSector, nSectors;
      env := drive.bios;
      cache := new Cache();
    }

    function SectorSize(): nat { drive.info.nBytesPerSector }

    /** The bytes of n sectors of the device. */
    function Sectors(sector: nat, n: nat): (r: seq<byte>)
      requires Sound() && sector + n <= nSectors
      ensures |r| == n * SectorSize()
    {
      drive.Sectors(startSector + sector, n)
    }

    predicate Sound() {
      drive.Valid() && startSector + nSectors <= drive.info.nTotalSectors && env == drive.bios
    }

    /** Every cached sector is a sector of the device and reads as the disk does. */
    ghost predicate Coherent(items: seq<Item>)
      requires Sound()
    {
      forall i :: 0 <= i < |items| ==> items[i].tag < nSectors && items[i].data == Sectors(items[i].tag, 1)
    }

    ghost predicate Valid()
      reads cache, cache.items
    {
      Sound() && cache.Valid() && Coherent(cache.Used())
    }

    lemma SectorsJoin(sector: nat, a: nat, b: nat)
      requires Sound() && sector + a + b <= nSectors
      ensures Sectors(sector, a) + Sectors(sector + a, b) == Sectors(sector, a + b)
    {
      drive.JoinSectors(startSector + sector, a, b);
    }

    lemma SectorsOfRun(sector: nat, n: nat, i: nat, m: nat)
      requires Sound() && sector + n <= nSectors && i + m <= n
      ensures (i + m) * SectorSize() <= n * SectorSize()
      ensures Units(Sectors(sector, n), SectorSize(), i, m) == Sectors(sector + i, m)
    {
      FewerUnitsFit(SectorSize(), 0, startSector + sector + n, drive.info.nTotalSectors, |drive.disk|);
      UnitsOfRun(drive.disk, SectorSize(), startSector + sector, n, i, m);
    }

    /** How many sectors from `sector` on are not cached; the probe that ends the run is a touch. */
    method CountUncached(sector: nat, n: nat) returns (count: nat)
      requires Valid() && 0 < n && sector !in Tags(cache.Used())
      modifies cache, cache.items
      ensures Valid() && 1 <= count <= n
      ensures forall t :: sector <= t < sector + count ==> t !in Tags(cache.Used())
      ensures Touched(old(cache.history), cache.history, sector, sector + n, sector)
    {
      count := 1;
      var end := sector + 1;
      ghost var h := cache.history;
      while end < sector + n
        invariant 1 <= count <= n && end == sector + count && unchanged(cache) && unchanged(cache.items)
        invariant forall t :: sector <= t < end ==> t !in Tags(cache.Used())
      {
        ghost var used := cache.Used();
        var hit, data := cache.ReadCache(end);
        if hit {
          SameTags(used, cache.Used());
          assert cache.history == h + [end];
          return;
        }
        end := end + 1;
        count := count + 1;
      }
    }

    /** Attempts on the drive that began at these times, the last of which was over at `now`. */
    ghost predicate Attempts(times: seq<nat>, now: nat, ok: bool) {
      && (forall k :: 0 <= k < |times| - 1 ==> times[k] <= times[k + 1] && !env.Smooth(times[k], times[k + 1]))
      && (times != [] ==> times[|times| - 1] <= now && (ok <==> env.Smooth(times[|times| - 1], now)))
    }

    lemma OneAttemptMore(times: seq<nat>, before: nat, now: nat, ok: bool)
      requires Attempts(times, before, false) && before <= now && (ok <==> env.Smooth(before, now))
      ensures Attempts(times + [before], now, ok)
    {
    }

    /** One attempt at reading the run. */
    method Attempt(sector: nat, count: nat, tmp: array<byte>) returns (ok: bool)
      requires Sound() && 0 < count && sector + count <= nSectors && tmp.Length == count * SectorSize()
      modifies tmp, env
      ensures old(env.asked) <= env.asked
      ensures ok ==> tmp[..] == Sectors(sector, count)
      ensures count < 0x1_0000 ==> (ok <==> env.Smooth(old(env.asked), env.asked))
      ensures Sought(old(env.sought), env.sought, startSector + sector, startSector + sector + count)
    {
      hide Units, Sought, Oracle.Smooth;
      var read := drive.ReadDrive(startSector + sector, count, tmp);
      ok := read == count;
      if ok {
        assert tmp[..] == tmp[..count * SectorSize()];
      }
    }

    /**
     Up to eight attempts at reading the run; the drive is reset after each failure.  One in which
     nothing fails is enough: the read fails exactly if eight have been made and something has
     failed in each.
     */
    method ReadRetried(sector: nat, count: nat, tmp: array<byte>) returns (ok: bool, ghost times: seq<nat>)
      requires Sound() && 0 < count && sector + count <= nSectors && tmp.Length == count * SectorSize()
      modifies tmp, env
      ensures old(env.asked) <= env.asked
      ensures ok ==> tmp[..] == Sectors(sector, count)
      ensures count < 0x1_0000 ==>
                && Attempts(times, env.asked, ok) && 1 <= |times| <= 8 && times[0] == old(env.asked)
                && (!ok ==> |times| == 8)
      ensures env.Smooth(old(env.asked), env.asked) && count < 0x1_0000 ==> ok
      ensures Sought(old(env.sought), env.sought, startSector + sector, startSector + sector + count)
    {
      hide Attempts, Sought, Sectors, Units, Oracle.Smooth, Drive.Sectors, Sound;
      var i := 0;
      ok, times := false, [];
      NoAttempt(env.asked);
      NothingSought(env.sought, startSector + sector, startSector + sector + count);
      while i < MAX_READ_TRY && !ok
        invariant i <= MAX_READ_TRY && old(env.asked) <= env.asked && (ok ==> 0 < i)
        invariant ok ==> tmp[..] == Sectors(sector, count)
        invariant Sought(old(env.sought), env.sought, startSector + sector, startSector + sector + count)
        invariant env.Smooth(old(env.asked), env.asked) && count < 0x1_0000 ==> ok || i == 0
        invariant |times| == i && (i == 0 && !ok ==> env.asked == old(env.asked))
        invariant (0 < i ==> times[0] == old(env.asked))
        invariant count < 0x1_0000 ==> Attempts(times, env.asked, ok)
      {
        ghost var sought, before := env.sought, env.asked;
        ok := Attempt(sector, count, tmp);
        SoughtOn(old(env.sought), sought, env.sought, startSector + sector, startSector + sector + count,
                 startSector + sector, startSector + sector + count);
        if env.Smooth(old(env.asked), env.asked) {
          env.SmoothParts(old(env.asked), before, env.asked);
        }
        if count < 0x1_0000 {
          OneAttemptMore(times, before, env.asked, ok);
        }
        times := times + [before];
        i := i + 1;
      }
    }

    lemma NoAttempt(now: nat)
      ensures Attempts([], now, false)
    {
    }

    method StoreOne(sector: nat, data: seq<byte>)
      requires Valid() && sector < nSectors && data == Sectors(sector, 1) && sector !in Tags(cache.Used())
      modifies cache, cache.items
      ensures Valid() && cache.history == old(cache.history) + [sector]
      ensures Tags(cache.Used()) <= Tags(old(cache.Used())) + {sector}
    {
      ghost var used := cache.Used();
      cache.WriteCache(sector, data);
      forall i | 0 <= i < |cache.Used()|
        ensures cache.Used()[i].tag < nSectors && cache.Used()[i].data == Sectors(cache.Used()[i].tag, 1)
        ensures cache.Used()[i].tag in Tags(used) + {sector}
      {
        var item := cache.Used()[i];
        if !(item.tag == sector && item.data == data) {
          var j :| 0 <= j < |used| && used[j].tag == item.tag && used[j].data == item.data;
        }
      }
    }

    /** Each sector of the run is copied into the cache if there is memory for it. */
    method Store(sector: nat, count: nat, tmp: array<byte>)
      requires Valid() && sector + count <= nSectors && tmp[..] == Sectors(sector, count)
      requires forall t :: sector <= t < sector + count ==> t !in Tags(cache.Used())
      modifies cache, cache.items, env
      ensures Valid() && old(env.asked) <= env.asked
      ensures Touched(old(cache.history), cache.history, sector, sector + count, sector)
      ensures env.Smooth(old(env.asked), env.asked) && SectorSize() <= 65520 ==>
                Touched(old(cache.history), cache.history, sector, sector + count, sector + count)
      ensures env.sought == old(env.sought)
    {
      var i := 0;
      ghost var h, from := cache.history, env.asked;
      while i < count
        invariant i <= count && Valid() && from <= env.asked && env.sought == old(env.sought)
        invariant tmp[..] == Sectors(sector, count)
        invariant forall t :: sector + i <= t < sector + count ==> t !in Tags(cache.Used())
        invariant Touched(h, cache.history, sector, sector + count, sector)
        invariant env.Smooth(from, env.asked) && SectorSize() <= 65520 ==>
                  Touched(h, cache.history, sector, sector + count, sector + i)
      {
        hide Tags, Sectors;
        var ok := env.Malloc(SectorSize());
        if ok {
          ghost var h1 := cache.history;
          SectorsOfRun(sector, count, i, 1);
          StoreOne(sector + i, tmp[i * SectorSize()..(i + 1) * SectorSize()]);
          TouchedFurther(h, h1, cache.history);
        }
        i := i + 1;
      }
    }

    /** A sector read by the cache, straight into the buffer. */
    method ReadCached(sector: nat, buffer: array<byte>, at: nat) returns (hit: bool)
      requires Valid() && sector < nSectors && at + SectorSize() <= buffer.Length
      modifies buffer, cache, cache.items
      ensures Valid() && hit == (sector in Tags(old(cache.Used())))
      ensures cache.history == if hit then old(cache.history) + [sector] else old(cache.history)
      ensures Tags(cache.Used()) == Tags(old(cache.Used()))
      ensures buffer[..] == if hit then Spliced(old(buffer[..]), at, Sectors(sector, 1)) else old(buffer[..])
    {
      ghost var used := cache.Used();
      var data;
      hit, data := cache.ReadCache(sector);
      SameTags(used, cache.Used());
      if hit {
        Memcpy(buffer, at, data);
      }
    }

    /** A buffer of as many of the sectors as there is memory for, filled from the drive. */
    method Fetch(sector: nat, wanted: nat) returns (ok: bool, count: nat, tmp: array<byte>)
      requires Sound() && 0 < wanted && sector + wanted <= nSectors
      modifies env
      ensures old(env.asked) <= env.asked && fresh(tmp)
      ensures ok ==> 1 <= count <= wanted && tmp[..] == Sectors(sector, count)
      ensures env.Smooth(old(env.asked), env.asked) && SectorSize() <= 21840 ==> ok
      ensures Sought(old(env.sought), env.sought, startSector + sector, startSector + sector + wanted)
    {
      hide Units, Sectors;
      if SectorSize() <= 21840 {
        SmallUnitsAreObtained(wanted, SectorSize());
      }
      ok, count := env.GetBuffer(wanted, SectorSize());
      if !ok {
        tmp := new byte[0];
        return;
      }
      assert count * SectorSize() < 0x1_0000 && count <= count * SectorSize() by {
        MulAtLeast(count, SectorSize());
      }
      tmp := new byte[count * SectorSize()](_ => 0);
      ghost var times;
      ok, times := ReadRetried(sector, count, tmp);
    }

    /** Sectors read from the drive: as many as are not cached and a buffer can be had for. */
    method ReadUncached(sector: nat, n: nat, buffer: array<byte>, at: nat) returns (ok: bool, count: nat)
      requires Valid() && 0 < n && sector + n <= nSectors && at + n * SectorSize() <= buffer.Length
      requires sector !in Tags(cache.Used())
      modifies buffer, cache, cache.items, env
      ensures Valid() && old(env.asked) <= env.asked
      ensures ok ==> 1 <= count <= n && count * SectorSize() <= n * SectorSize()
      ensures buffer[..] == if ok then Spliced(old(buffer[..]), at, Sectors(sector, count)) else old(buffer[..])
      ensures Touched(old(cache.history), cache.history, sector, sector + n, sector)
      ensures env.Smooth(old(env.asked), env.asked) && SectorSize() <= 21840 ==>
                ok && Touched(old(cache.history), cache.history, sector, sector + n, sector + count)
      ensures Sought(old(env.sought), env.sought, startSector + sector, startSector + sector + n)
    {
      hide Tags, Sectors, Units, Touched, Spliced, Coherent, Cache.Valid;
      ghost var h := cache.history;
      var wanted := CountUncached(sector, n);
      ghost var h1 := cache.history;
      var tmp;
      ok, count, tmp := Fetch(sector, wanted);
      if !ok {
        return;
      }
      Store(sector, count, tmp);
      TouchedOn(h, h1, cache.history, sector, sector, sector + count, sector + n, sector, sector);
      if env.Smooth(old(env.asked), env.asked) && SectorSize() <= 21840 {
        TouchedOn(h, h1, cache.history, sector, sector, sector + count, sector + n, sector, sector + count);
      }
      FewerUnitsFit(SectorSize(), 0, count, n, n * SectorSize());
      Memcpy(buffer, at, tmp[..]);
    }

    /** One round of ReadSector's loop: one cached sector, or a run of uncached ones. */
    method ReadPiece(sector: nat, n: nat, buffer: array<byte>, at: nat) returns (ok: bool, count: nat)
      requires Valid() && 0 < n && sector + n <= nSectors && at + n * SectorSize() <= buffer.Length
      modifies buffer, cache, cache.items, env
      ensures Valid() && old(env.asked) <= env.asked
      ensures ok ==> 1 <= count <= n && count * SectorSize() <= n * SectorSize()
      ensures buffer[..] == if ok then Spliced(old(buffer[..]), at, Sectors(sector, count)) else old(buffer[..])
      ensures Touched(old(cache.history), cache.history, sector, sector + n, sector)
      ensures env.Smooth(old(env.asked), env.asked) && SectorSize() <= 21840 ==>
                ok && Touched(old(cache.history), cache.history, sector, sector + n, sector + count)
      ensures Sought(old(env.sought), env.sought, startSector + sector, startSector + sector + n)
    {
      hide Tags, Sectors, Units, Touched, Spliced, Coherent, Cache.Valid, Sought;
      MulAtLeast(SectorSize(), n);
      NothingSought(env.sought, startSector + sector, startSector + sector + n);
      OneTouched(cache.history, sector, n);
      var hit := ReadCached(sector, buffer, at);
      if hit {
        return true, 1;
      }
      ok, count := ReadUncached(sector, n, buffer, at);
    }

    lemma PiecesJoin(b0: seq<byte>, at: nat, sector: nat, read: nat, count: nat)
      requires Sound() && sector + read + count <= nSectors && at + (read + count) * SectorSize() <= |b0|
      ensures (read + count) * SectorSize() == read * SectorSize() + count * SectorSize()
      ensures Spliced(Spliced(b0, at, Sectors(sector, read)), at + read * SectorSize(), Sectors(sector + read, count))
           == Spliced(b0, at, Sectors(sector, read + count))
    {
      UnitsFit(SectorSize(), read, count);
      SectorsJoin(sector, read, count);
      SplicedTwice(b0, at, Sectors(sector, read), Sectors(sector + read, count));
    }

    lemma NothingRead(b0: seq<byte>, at: nat, sector: nat)
      requires Sound() && sector <= nSectors && at <= |b0|
      ensures Spliced(b0, at, Sectors(sector, 0)) == b0
    {
    }

    /**
     ReadSector.  Whatever is cached and whatever fails, the buffer receives the counted
     sectors of the device and nothing else changes in it; without failures that is all of
     them.  A request that leaves the device reads nothing; the drive is never asked for a sector
     that was not requested, and so for none outside the partition.
     */
    method ReadSector(sector: nat, n: nat, buffer: array<byte>, at: nat) returns (read: nat)
      requires Valid() && at + n * SectorSize() <= buffer.Length
      modifies buffer, cache, cache.items, env
      ensures Valid() && old(env.asked) <= env.asked
      ensures read <= n && (sector + n > nSectors ==> read == 0)
      ensures sector + n <= nSectors ==> at + read * SectorSize() <= buffer.Length
      ensures buffer[..] == if sector + n <= nSectors
                            then Spliced(old(buffer[..]), at, Sectors(sector, read)) else old(buffer[..])
      ensures Touched(old(cache.history), cache.history, sector, sector + n, sector)
      ensures env.Smooth(old(env.asked), env.asked) && SectorSize() <= 21840 && sector + n <= nSectors ==>
                read == n && Touched(old(cache.history), cache.history, sector, sector + n, sector + n)
      ensures Sought(old(env.sought), env.sought, startSector + sector, startSector + sector + n)
      ensures sector + n > nSectors ==> env.sought == old(env.sought)
    {
      hide Sectors, Touched, Spliced, Tags, Units, Coherent;
      read := 0;
      ghost var b0, h := buffer[..], cache.history;
      NothingTouched(h, sector, sector + n);
      NothingSought(env.sought, startSector + sector, startSector + sector + n);
      if sector + n > nSectors {
        return;
      }
      NothingRead(b0, at, sector);
      while read < n
        invariant read <= n && Valid() && old(env.asked) <= env.asked && at + read * SectorSize() <= buffer.Length
        invariant buffer[..] == Spliced(b0, at, Sectors(sector, read))
        invariant Touched(h, cache.history, sector, sector + n, sector)
        invariant Sought(old(env.sought), env.sought, startSector + sector, startSector + sector + n)
        invariant env.Smooth(old(env.asked), env.asked) && SectorSize() <= 21840 ==>
                    Touched(h, cache.history, sector, sector + n, sector + read)
      {
        UnitsFit(SectorSize(), read, n - read);
        ghost var h1, sought := cache.history, env.sought;
        var ok, count := ReadPiece(sector + read, n - read, buffer, at + read * SectorSize());
        SoughtOn(old(env.sought), sought, env.sought, startSector + sector, startSector + sector + n,
                 startSector + sector + read, startSector + sector + n);
        TouchedOn(h, h1, cache.history, sector, sector + read, sector + n, sector + n, sector, sector + read);
        if env.Smooth(old(env.asked), env.asked) && SectorSize() <= 21840 {
          TouchedOn(h, h1, cache.history, sector, sector + read, sector + n, sector + n, sector + read,
                    sector + read + count);
        }
        if !ok {
          return;
        }
        UnitsFit(SectorSize(), read + count, n - read - count);
        PiecesJoin(b0, at, sector, read, count);
        read := read + count;
      }
    }

    /** A buffer for n sectors is filled, or the read counts as failed. */
    method Fill(sector: nat, n: nat, buffer: array<byte>) returns (ok: bool)
      requires Valid() && buffer.Length == n * SectorSize()
      modifies buffer, cache, cache.items, env
      ensures Valid() && old(env.asked) <= env.asked
      ensures ok && 0 < n ==> sector + n <= nSectors
      ensures ok && sector + n <= nSectors ==> buffer[..] == Sectors(sector, n)
      ensures env.Smooth(old(env.asked), env.asked) && SectorSize() <= 21840 && sector + n <= nSectors ==> ok
    {
      hide Sectors, Touched, Spliced, Tags, Units, Coherent;
      ghost var b0 := buffer[..];
      var read := ReadSector(sector, n, buffer, 0);
      ok := read == n;
      if ok && sector + n <= nSectors {
        WholeBuffer(b0, Sectors(sector, n));
      }
    }
  }
}

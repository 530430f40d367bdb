/**
 The raw "filesystem" (src/raw.c): a device as one flat file, read from any byte position
 through the cached sector layer.
 */
module RawFile {
  import opened Arith
  import opened Bytes
  import opened Common
  import opened Env
  import opened SectorCache
  import opened SectorIo

  /** Sectors of a file that need not be whole in the file's last sector do lie in it. */
  lemma SectorsInRange(size: nat, cursor: nat, wanted: nat, bps: nat, total: nat, n: nat)
    requires 0 < bps && 0 < wanted && size == total * bps && n == (cursor % bps + wanted + bps - 1) / bps
    ensures cursor + wanted <= size <==> cursor / bps + n <= total
  {
    RoundedUp(cursor % bps + wanted, bps, n);
    Division(cursor, bps);
    UnitsFit(bps, cursor / bps, n);
    RangeOfUnits(bps, cursor / bps + n, total, cursor + wanted);
  }

  /** The end x of a byte range lies in unit number n - 1 at the latest. */
  lemma RangeOfUnits(bps: nat, n: nat, total: nat, x: nat)
    requires 0 < bps && x <= n * bps < x + bps
    ensures x <= total * bps <==> n <= total
  {
    if n <= total {
      FewerUnitsFit(bps, 0, n, total, total * bps);
    } else {
      UnitsFit(bps, total, 1);
      FewerUnitsFit(bps, 0, total + 1, n, n * bps);
    }
  }

  class RawFile {
    const device: Device
    var cursor: nat

    constructor (device: Device)
      requires device.Valid()
      ensures this.device == device && cursor == 0 && Valid()
    {
      this.device := device;
      cursor := 0;
    }

    /** The device is opened again. */
    method Open()
      requires device.Valid()
      modifies this
      ensures Valid() && cursor == 0
    {
      cursor := 0;
    }

    function Size(): nat { device.nSectors * device.SectorSize() }

    /** The bytes of the device. */
    function Content(): (r: seq<byte>)
      requires device.Sound()
      ensures |r| == Size()
    {
      device.Sectors(0, device.nSectors)
    }

    ghost predicate Valid()
      reads this, device.cache, device.cache.items
    {
      device.Valid() && cursor <= Size()
    }

    /** Nothing has failed since, and sectors are small enough to be allocated. */
    ghost predicate Fair(from: nat)
      reads device.env
    {
      device.env.Smooth(from, device.env.asked) && device.SectorSize() <= 21840
    }

    lemma ContentUnits(sector: nat, n: nat)
      requires device.Sound() && sector + n <= device.nSectors
      ensures (sector + n) * device.SectorSize() <= Size()
      ensures device.Sectors(sector, n) == Units(Content(), device.SectorSize(), sector, n)
    {
      device.SectorsOfRun(0, device.nSectors, sector, n);
    }

    /** A buffer of as many of the sectors as there is memory for, filled from the device. */
    method Fetch(sector: nat, needed: nat) returns (ok: bool, n: nat, tmp: array<byte>)
      requires Valid() && 0 < needed
      modifies device.cache, device.cache.items, device.env
      ensures Valid() && old(device.env.asked) <= device.env.asked && fresh(tmp)
      ensures ok ==> 1 <= n <= needed && sector + n <= device.nSectors && (sector + n) * device.SectorSize() <= Size()
      ensures ok ==> tmp[..] == Units(Content(), device.SectorSize(), sector, n)
      ensures Fair(old(device.env.asked)) && sector + needed <= device.nSectors ==> ok
    {
      assert 0 < device.SectorSize();
      hide Units, Spliced, Size, Content, Cache.Valid, Device.Coherent, Device.Sound;
      var bps := device.SectorSize();
      if bps <= 21840 {
        SmallUnitsAreObtained(needed, bps);
      }
      ok, n := device.env.GetBuffer(needed, bps);
      if !ok {
        tmp := new byte[0];
        return;
      }
      MulAtLeast(n, bps);
      tmp := new byte[n * bps](_ => 0);
      ok := device.Fill(sector, n, tmp);
      if ok {
        ContentUnits(sector, n);
      }
    }

    /** The sectors that the wanted bytes lie in, and how many bytes of the first come before them. */
    method Span(wanted: nat) returns (sector: nat, skip: nat, n: nat)
      requires Valid() && 0 < wanted
      ensures 1 <= n && cursor == sector * device.SectorSize() + skip
      ensures skip < device.SectorSize() && skip + wanted <= n * device.SectorSize()
      ensures cursor + wanted <= Size() <==> sector + n <= device.nSectors
    {
      var bps := device.SectorSize();
      n := (cursor % bps + wanted + bps - 1) / bps;
      sector, skip := cursor / bps, cursor % bps;
      Division(cursor, bps);
      RoundedUp(cursor % bps + wanted, bps, n);
      SectorsInRange(Size(), cursor, wanted, bps, device.nSectors, n);
    }

    /**
     One round of _ReadFile's loop: as many whole sectors as there is memory for, the wanted
     part of which is copied out.
     */
    lemma DeviceIsSound()
      requires Valid()
      ensures device.Sound() && 0 < device.SectorSize()
    {
    }

    method ReadChunk(buffer: array<byte>, at: nat, wanted: nat) returns (ok: bool, len: nat)
      requires Valid() && 0 < wanted && at + wanted <= buffer.Length
      modifies this`cursor, buffer, device.cache, device.cache.items, device.env
      ensures Valid() && old(device.env.asked) <= device.env.asked
      ensures cursor == if ok then old(cursor) + len else old(cursor)
      ensures ok ==> 1 <= len <= wanted
      ensures buffer[..] == if ok then Spliced(old(buffer[..]), at, Content()[old(cursor)..cursor]) else old(buffer[..])
      ensures Fair(old(device.env.asked)) && old(cursor) + wanted <= Size() ==> ok
    {
      hide Units, Spliced, Content, Size, Device.Valid, Device.Sound;
      DeviceIsSound();
      var sector, skip, n := Span(wanted);
      var tmp;
      ok, n, tmp := Fetch(sector, n);
      if !ok {
        return false, 0;
      }
      MulAtLeast(device.SectorSize(), n);
      len := n * device.SectorSize() - skip;
      if wanted < len {
        len := wanted;
      }
      SliceOfUnits(Content(), device.SectorSize(), sector, n, skip, len);
      Memcpy(buffer, at, tmp[skip..skip + len]);
      cursor := cursor + len;
    }

    /**
     _ReadFile.  The bytes counted in `read` are the bytes of the device from the cursor on,
     and the cursor moves past them; without failures that is everything that was asked for.
     */
    method ReadFile(buffer: array<byte>, at: nat, nBytes: nat) returns (read: nat)
      requires Valid() && at + nBytes <= buffer.Length && nBytes < 0x1_0000_0000
      modifies this`cursor, buffer, device.cache, device.cache.items, device.env
      ensures Valid() && old(device.env.asked) <= device.env.asked
      ensures read <= nBytes && cursor == old(cursor) + read
      ensures buffer[..] == Spliced(old(buffer[..]), at, Content()[old(cursor)..cursor])
      ensures Fair(old(device.env.asked)) && old(cursor) + nBytes <= Size() ==> read == nBytes
    {
      hide Content, Spliced, Size, Cache.Valid, Device.Coherent, Device.Sound;
      read := 0;
      NothingCopied(buffer[..], Content(), at, cursor);
      var left := nBytes;
      while left > 0
        invariant Valid() && read + left == nBytes && cursor == old(cursor) + read
        invariant old(device.env.asked) <= device.env.asked
        invariant buffer[..] == Spliced(old(buffer[..]), at, Content()[old(cursor)..cursor])
        decreases left
      {
        ghost var before := cursor;
        var ok, len := ReadChunk(buffer, at + read, left);
        if !ok {
          return;
        }
        SlicesJoin(Content(), old(cursor), read, len);
        SplicedTwice(old(buffer[..]), at, Content()[old(cursor)..before], Content()[before..cursor]);
        read := read + len;
        left := left - len;
      }
    }

    /**
     _SetFilePointer: the comparison with the size is one of unsigned 64-bit numbers.  A seek
     goes exactly where it should, or is refused and changes nothing.
     */
    method SetFilePointer(offset: int, whence: Whence) returns (ok: bool)
      requires Valid() && -0x8000_0000_0000_0000 <= offset < 0x8000_0000_0000_0000 && Size() < 0x8000_0000_0000_0000
      modifies this`cursor
      ensures Valid() && ok == (0 <= Target(Size(), old(cursor), offset, whence) < Size())
      ensures cursor == if ok then Target(Size(), old(cursor), offset, whence) else old(cursor)
    {
      hide Size, Device.Valid;
      var target := offset;
      if whence == FromCurrent {
        target := target + cursor;
      } else if whence == FromEnd {
        target := Size() - target;
      }
      target := target % 0x1_0000_0000_0000_0000;
      if target >= Size() {
        return false;
      }
      cursor := target;
      return true;
    }
  }
}

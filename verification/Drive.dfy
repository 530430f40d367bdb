/**
 Reading a drive through the BIOS (src/drive.c): the geometry that int 13h/08h reports, the
 packing of a sector number into cylinder, head and sector registers, and ReadDrive.
 */
module Drive {
  import opened Arith
  import opened Bytes
  import opened Common
  import opened Env

  /** What GetDriveParameters keeps of a drive. */
  datatype DriveInfo = DriveInfo(edd: bool, nHeads: nat, nSectors: nat, nCylinders: nat, nTotalSectors: nat,
                                 nBytesPerSector: nat)

  // ---------------------------------------------------------------- registers

  datatype Registers = Registers(ch: byte, cl: byte, dh: byte)

  /** Cylinder, head and (1-based) sector number of a transfer. */
  datatype Place = Place(cylinder: nat, head: nat, sector: nat)

  /** The geometry that int 13h/08h leaves in CH, CL and DH. */
  function Geometry(r: Registers, bytesPerSector: nat): DriveInfo {
    var heads := r.dh + 1;
    var sectors := r.cl % 64;
    var cylinders := r.cl / 64 * 256 + r.ch + 1;
    DriveInfo(false, heads, sectors, cylinders, heads * sectors * cylinders, bytesPerSector)
  }

  /** ReadDrive's cylinder, head and sector of a sector number. */
  function Locate(d: DriveInfo, lba: nat): (p: Place)
    requires 0 < d.nHeads && 0 < d.nSectors
    ensures 1 <= p.sector <= d.nSectors && p.head < d.nHeads
  {
    assert 0 < d.nHeads * d.nSectors by { MulAtLeast(d.nHeads, d.nSectors); }
    Place(lba / (d.nHeads * d.nSectors), lba / d.nSectors % d.nHeads, lba % d.nSectors + 1)
  }

  /** The packing of a place into registers; every field is cut to its width. */
  function Pack(p: Place): Registers {
    Registers(p.cylinder % 256, p.sector % 64 + p.cylinder / 256 % 4 * 64, p.head % 256)
  }

  /** How the BIOS reads the registers. */
  function Unpack(r: Registers): Place {
    Place(r.cl / 64 * 256 + r.ch, r.dh, r.cl % 64)
  }

  /** The sector number of a place. */
  function Lba(d: DriveInfo, p: Place): (lba: int)
    ensures 1 <= p.sector ==> 0 <= lba
  {
    var track: nat := p.cylinder * d.nHeads + p.head;
    MulOrder(if d.nSectors == 0 then 1 else d.nSectors, 0, track);
    track * d.nSectors + p.sector - 1
  }

  /** Limits that int 13h can express. */
  predicate Addressable(d: DriveInfo) {
    && 0 < d.nHeads <= 256 && 0 < d.nSectors <= 63 && 0 < d.nCylinders <= 1024
    && d.nTotalSectors == d.nHeads * d.nSectors * d.nCylinders
  }

  lemma GeometryIsAddressable(r: Registers, bytesPerSector: nat)
    requires r.cl % 64 != 0
    ensures Addressable(Geometry(r, bytesPerSector))
  {
  }

  /** The registers name the last sector: of the last track, at its last cylinder and head. */
  lemma GeometryEndsAtTheLast(r: Registers, bytesPerSector: nat)
    requires r.cl % 64 != 0
    ensures var (d, p) := (Geometry(r, bytesPerSector), Unpack(r));
      && p.sector == d.nSectors && p.head + 1 == d.nHeads && p.cylinder + 1 == d.nCylinders
      && Lba(d, p) + 1 == d.nTotalSectors && d.nBytesPerSector == bytesPerSector && !d.edd
  {
    var d, p := Geometry(r, bytesPerSector), Unpack(r);
    assert p.cylinder * d.nHeads + p.head + 1 == d.nHeads * d.nCylinders;
    assert (d.nHeads * d.nCylinders - 1) * d.nSectors + d.nSectors == d.nHeads * d.nSectors * d.nCylinders;
  }

  /** A remainder of at most s - 1 on top of s * e, with e < h, stays below h * s. */
  lemma MixedRadix(h: nat, s: nat, c: nat, e: nat, r: nat)
    requires e < h && r < s
    ensures s * e + r < h * s
    ensures s * (h * c + e) + r == (h * s) * c + (s * e + r)
  {
    MulOrder(s, e, h);
    assert s * (h * c + e) == s * (h * c) + s * e;
    assert s * (h * c) == (h * s) * c;
  }

  lemma LocateRecovers(d: DriveInfo, lba: nat)
    requires 0 < d.nHeads && 0 < d.nSectors
    ensures Lba(d, Locate(d, lba)) == lba
  {
    hide Locate, Lba;
    var h, s := d.nHeads, d.nSectors;
    var t := lba / s;
    Division(lba, s);
    Division(t, h);
    LocatePlace(d, lba, t / h, t % h, lba % s, t);
    LbaOf(d, t / h, t % h, lba % s, t, lba);
  }

  lemma LbaOf(d: DriveInfo, c: nat, e: nat, r: nat, t: nat, lba: nat)
    requires t == c * d.nHeads + e && lba == t * d.nSectors + r
    ensures Lba(d, Place(c, e, r + 1)) == lba
  {
  }

  lemma CylinderOf(lba: nat, h: nat, s: nat, c: nat, e: nat, r: nat)
    requires e < h && r < s && lba == s * (h * c + e) + r
    ensures lba / (h * s) == c
  {
    MixedRadix(h, s, c, e, r);
    QuotientIs(lba, h * s, c, s * e + r);
  }

  lemma LocatePlace(d: DriveInfo, lba: nat, c: nat, e: nat, r: nat, t: nat)
    requires 0 < d.nHeads && 0 < d.nSectors && e < d.nHeads && r < d.nSectors
    requires t == c * d.nHeads + e && lba == t * d.nSectors + r
    ensures Locate(d, lba) == Place(c, e, r + 1)
  {
    CylinderOf(lba, d.nHeads, d.nSectors, c, e, r);
    QuotientIs(lba, d.nSectors, t, r);
    QuotientIs(t, d.nHeads, c, e);
  }

  lemma LocateIsInRange(d: DriveInfo, lba: nat)
    requires Addressable(d) && lba < d.nTotalSectors
    ensures var p := Locate(d, lba); p.cylinder < d.nCylinders && p.head < d.nHeads && 1 <= p.sector <= d.nSectors
  {
    MulAtLeast(d.nHeads, d.nSectors);
    QuotientBelow(lba, d.nHeads * d.nSectors, d.nCylinders);
  }

  lemma PackLosesNothing(p: Place)
    requires p.cylinder < 1024 && p.head < 256 && p.sector < 64
    ensures Unpack(Pack(p)) == p
  {
    var hi := p.cylinder / 256;
    assert Pack(p).cl / 64 == hi && Pack(p).cl % 64 == p.sector;
  }

  /** For every sector of an addressable drive the packed registers decode to that sector again. */
  lemma RegistersNameTheSector(d: DriveInfo, lba: nat)
    requires Addressable(d) && lba < d.nTotalSectors
    ensures Unpack(Pack(Locate(d, lba))) == Locate(d, lba)
    ensures Lba(d, Unpack(Pack(Locate(d, lba)))) == lba
  {
    LocateIsInRange(d, lba);
    PackLosesNothing(Locate(d, lba));
    LocateRecovers(d, lba);
  }

  // ---------------------------------------------------------------- transfers

  class Drive {
    const info: DriveInfo
    const disk: seq<byte>
    const bios: Oracle

    constructor (info: DriveInfo, disk: seq<byte>, bios: Oracle)
      requires !info.edd ==> Addressable(info)
      requires 0 < info.nBytesPerSector && |disk| == info.nTotalSectors * info.nBytesPerSector
      ensures this.info == info && this.disk == disk && this.bios == bios && Valid()
    {
      this.info, this.disk, this.bios := info, disk, bios;
    }

    predicate Valid() {
      && (!info.edd ==> Addressable(info))
      && 0 < info.nBytesPerSector && |disk| == info.nTotalSectors * info.nBytesPerSector
    }

    /** The bytes of n sectors. */
    function Sectors(sector: nat, n: nat): (r: seq<byte>)
      requires Valid() && sector + n <= info.nTotalSectors
      ensures |r| == n * info.nBytesPerSector
    {
      FewerUnitsFit(info.nBytesPerSector, 0, sector + n, info.nTotalSectors, |disk|);
      Units(disk, info.nBytesPerSector, sector, n)
    }

    /** Byte x of these sectors is on the disk behind all sectors before them. */
    lemma ByteOfSectors(sector: nat, n: nat, x: nat)
      requires Valid() && sector + n <= info.nTotalSectors && x < |Sectors(sector, n)|
      ensures sector * info.nBytesPerSector + x < |disk|
      ensures Sectors(sector, n)[x] == disk[sector * info.nBytesPerSector + x]
    {
      hide Addressable;
      FewerUnitsFit(info.nBytesPerSector, 0, sector + n, info.nTotalSectors, |disk|);
      UnitsFit(info.nBytesPerSector, sector, n);
    }

    /** A transfer of n sectors from an existing place, all on its track. */
    predicate Transferable(p: Place, n: nat) {
      && 1 <= p.sector && p.sector - 1 + n <= info.nSectors && p.head < info.nHeads && p.cylinder < info.nCylinders
      && Lba(info, p) + n <= info.nTotalSectors
    }

    /**
     int 13h/02h: transfers al sectors from the place in the registers, if it works.  The
     place has to exist and the transfer to stay on its track.
     */
    method Int13Read(r: Registers, al: nat) returns (ok: bool, data: seq<byte>)
      requires Valid() && !info.edd
      requires Transferable(Unpack(r), al)
      modifies bios
      ensures bios.asked == old(bios.asked) + 1 && ok == bios.answer(old(bios.asked))
      ensures ok ==> data == Sectors(Lba(info, Unpack(r)), al)
      ensures bios.sought == old(bios.sought) + [Transfer(Lba(info, Unpack(r)), al)]
    {
      bios.Note(Lba(info, Unpack(r)), al);
      ok := bios.Ask();
      data := if ok then Sectors(Lba(info, Unpack(r)), al) else [];
    }

    /** int 13h/42h. */
    method Int13ExtRead(start: nat, blocks: nat) returns (ok: bool, data: seq<byte>)
      requires Valid() && blocks < 0x1_0000 && start + blocks <= info.nTotalSectors
      modifies bios
      ensures bios.asked == old(bios.asked) + 1 && ok == bios.answer(old(bios.asked))
      ensures ok ==> data == Sectors(start, blocks)
      ensures bios.sought == old(bios.sought) + [Transfer(start, blocks)]
    {
      bios.Note(start, blocks);
      ok := bios.Ask();
      data := if ok then Sectors(start, blocks) else [];
    }

    /**
     ReadDrive.  The sectors counted in `read` are in the buffer, in order; no other sectors are
     asked for.  When nothing fails a CHS drive reads them all, and an EDD drive their number modulo
     65536, which is all of them exactly when EDD's 16-bit block count holds the number.
     */
    method ReadDrive(sector: nat, nSectors: nat, buffer: array<byte>) returns (read: nat)
      requires Valid() && sector + nSectors <= info.nTotalSectors && nSectors * info.nBytesPerSector <= buffer.Length
      modifies buffer, bios
      ensures read <= nSectors && old(bios.asked) <= bios.asked
      ensures sector + read <= info.nTotalSectors && read * info.nBytesPerSector <= buffer.Length
      ensures buffer[..read * info.nBytesPerSector] == Sectors(sector, read)
      ensures bios.Smooth(old(bios.asked), bios.asked) ==>
                read == (if info.edd then nSectors % 0x1_0000 else nSectors)
                && (read == nSectors <==> !info.edd || nSectors < 0x1_0000)
      ensures 0 < nSectors && read == nSectors ==> bios.Smooth(old(bios.asked), bios.asked)
      ensures Sought(old(bios.sought), bios.sought, sector, sector + nSectors)
    {
      if info.edd {
        read := ReadExtended(sector, nSectors, buffer);
      } else {
        read := ReadTracks(sector, nSectors, buffer);
      }
    }

    method ReadExtended(sector: nat, nSectors: nat, buffer: array<byte>) returns (read: nat)
      requires Valid() && info.edd && sector + nSectors <= info.nTotalSectors
      requires nSectors * info.nBytesPerSector <= buffer.Length
      modifies buffer, bios
      ensures read <= nSectors && bios.asked == old(bios.asked) + 1
      ensures sector + read <= info.nTotalSectors && read * info.nBytesPerSector <= buffer.Length
      ensures buffer[..read * info.nBytesPerSector] == Sectors(sector, read)
      ensures read == if bios.answer(old(bios.asked)) then nSectors % 0x1_0000 else 0
      ensures Sought(old(bios.sought), bios.sought, sector, sector + nSectors)
    {
      var nBlocks := nSectors % 0x1_0000;
      FewerUnitsFit(info.nBytesPerSector, 0, nBlocks, nSectors, buffer.Length);
      var ok, data := Int13ExtRead(sector, nBlocks);
      if !ok {
        return 0;
      }
      Memcpy(buffer, 0, data);
      return nBlocks;
    }

    lemma Known()
      requires Valid() && !info.edd
      ensures 0 < info.nHeads && 0 < info.nSectors
    {
    }

    /** The CHS loop: one transfer for each track touched. */
    method ReadTracks(sector: nat, nSectors: nat, buffer: array<byte>) returns (read: nat)
      requires Valid() && !info.edd && sector + nSectors <= info.nTotalSectors
      requires nSectors * info.nBytesPerSector <= buffer.Length
      modifies buffer, bios
      ensures read <= nSectors && old(bios.asked) <= bios.asked
      ensures sector + read <= info.nTotalSectors && read * info.nBytesPerSector <= buffer.Length
      ensures buffer[..read * info.nBytesPerSector] == Sectors(sector, read)
      ensures bios.Smooth(old(bios.asked), bios.asked) <==> read == nSectors
      ensures Sought(old(bios.sought), bios.sought, sector, sector + nSectors)
    {
      hide Addressable, Locate, Lba, Pack, Unpack, Transferable, Units, Sought, Oracle.Smooth, Sectors, Valid;
      Known();
      bios.SmoothNow(bios.asked);
      assert buffer[..0] == Sectors(sector, 0);
      NothingSought(bios.sought, sector, sector + nSectors);
      read := 0;
      var bps := info.nBytesPerSector;
      while read < nSectors
        invariant read <= nSectors && old(bios.asked) <= bios.asked && read * bps <= buffer.Length
        invariant buffer[..read * bps] == Sectors(sector, read)
        invariant bios.Smooth(old(bios.asked), bios.asked)
        invariant Sought(old(bios.sought), bios.sought, sector, sector + nSectors)
      {
        var at := sector + read;
        var p := Locate(info, at);
        var count := info.nSectors - (p.sector - 1);
        if count > nSectors - read { count := nSectors - read; }
        TrackStep(at, count);
        ghost var before, sought := bios.asked, bios.sought;
        var ok, data := Int13Read(Pack(p), count);
        OneSought(sought, at, count);
        SoughtOn(old(bios.sought), sought, bios.sought, sector, sector + nSectors, at, at + count);
        bios.SmoothOn(old(bios.asked), before);
        if !ok {
          return;
        }
        FewerUnitsFit(bps, 0, read + count, nSectors, buffer.Length);
        UnitsFit(bps, read, count);
        JoinSectors(sector, read, count);
        Memcpy(buffer, read * bps, data);
        read := read + count;
      }
    }

    lemma OneSought(sought: seq<Transfer>, at: nat, count: nat)
      ensures Sought(sought, sought + [Transfer(at, count)], at, at + count)
    {
    }

    /** The place of a sector, sent through the registers, allows a transfer up to the end of its track. */
    lemma TrackStep(at: nat, count: nat)
      requires Valid() && !info.edd && at + count <= info.nTotalSectors && 0 < count
      requires count <= info.nSectors - (Locate(info, at).sector - 1)
      ensures Transferable(Unpack(Pack(Locate(info, at))), count) && Lba(info, Unpack(Pack(Locate(info, at)))) == at
    {
      RegistersNameTheSector(info, at);
      LocateIsInRange(info, at);
    }

    lemma JoinSectors(sector: nat, a: nat, b: nat)
      requires Valid() && sector + a + b <= info.nTotalSectors
      ensures Sectors(sector, a) + Sectors(sector + a, b) == Sectors(sector, a + b)
    {
      FewerUnitsFit(info.nBytesPerSector, 0, sector + a + b, info.nTotalSectors, |disk|);
      UnitsJoin(disk, info.nBytesPerSector, sector, a, b);
    }
  }
}

/**
 A file as the loaders see it: src/io.c passes SetFilePointer and ReadFile on to the filesystem
 that the device was mounted with.  What the loaders may rely on is what RawFile and FatFile
 promise.
 */
module Image {
  import opened Bytes
  import opened Common
  import opened Env
  import opened FatFile
  import opened RawFile
  import opened SectorCache
  import opened SectorIo

  class ImageFile {
    const device: Device
    const fat: FatFile?
    const raw: RawFile?

    constructor Fat(file: FatFile)
      ensures fat == file && raw == null && device == file.volume.device && Wired()
    {
      fat, raw, device := file, null, file.volume.device;
    }

    constructor Raw(file: RawFile)
      ensures raw == file && fat == null && device == file.device && Wired()
    {
      fat, raw, device := null, file, file.device;
    }

    predicate Wired() {
      if fat != null then raw == null && fat.volume.device == device else raw != null && raw.device == device
    }

    /** Sectors of more than 21840 bytes do not come in threes from malloc; no drive has them. */
    ghost predicate Sound() {
      && Wired() && device.Sound()
      && (fat != null ==> fat.Sound())
      && (raw != null ==> raw.Size() < 0x8000_0000_0000_0000 && device.SectorSize() <= 21840)
    }

    function Size(): nat
      requires Wired()
    {
      if fat != null then fat.size else raw.Size()
    }

    ghost function Content(): (r: seq<byte>)
      requires Sound()
      ensures |r| == Size()
    {
      if fat != null then fat.Content() else raw.Content()
    }

    /** All that a call may change, beside the buffer. */
    ghost function Parts(): set<object> {
      {device.cache, device.cache.items, device.env}
      + (if fat != null then {fat} else {}) + (if raw != null then {raw} else {})
    }

    ghost predicate Valid()
      reads Parts()
    {
      Sound() && device.Valid() && (fat != null ==> fat.Valid()) && (raw != null ==> raw.Valid())
    }

    function Cursor(): nat
      requires Wired()
      reads fat, raw
    {
      if fat != null then fat.cursor else raw.cursor
    }

    /** The next read begins with the byte at the cursor: a FAT file's cluster is the one on its chain. */
    ghost predicate OnTrack()
      requires Sound()
      reads fat
    {
      fat != null ==> fat.OnChainAt(fat.cluster, fat.cursor)
    }

    /** An undisturbed seek from p to t ends on track: it rewinds and that finds the file, or it was on track before. */
    predicate FoundFrom(p: nat, onTrack: bool, t: nat)
      requires Wired()
    {
      fat != null ==> if fat.Rewinds(p, t) then fat.first < 0x1_0000 else onTrack
    }

    /** A seek from p to t ends on track whatever fails: it reads nothing from the table. */
    predicate KeptFrom(p: nat, onTrack: bool, t: nat)
      requires Wired()
    {
      fat != null ==> fat.Stays(p, t) && (onTrack || fat.Rewinds(p, t))
    }

    /**
     A seek from p to t, done between these points in time, ends on track: whatever fails, or because
     nothing has failed.
     */
    ghost predicate Lands(p: nat, onTrack: bool, t: nat, begun: nat, sought: nat)
      requires Wired()
    {
      KeptFrom(p, onTrack, t) || (FoundFrom(p, onTrack, t) && device.env.Smooth(begun, sought))
    }

    /**
     An undisturbed read of n bytes from p delivers them all: they are there, and no run makes a
     FAT file's reader stop.
     */
    ghost predicate Whole(p: nat, n: nat)
      requires Sound()
    {
      p + n <= Size() && (fat != null ==> fat.NoStop(p, n, p + n))
    }

    /** Nothing has failed since. */
    ghost predicate Smooth(from: nat)
      reads device.env
    {
      device.env.Smooth(from, device.env.asked)
    }

    lemma SmoothMeans(from: nat)
      ensures Smooth(from) <==> device.env.Smooth(from, device.env.asked)
    {
    }

    lemma SmoothSteps(from: nat, mid: nat)
      requires from <= mid <= device.env.asked && Smooth(from)
      ensures device.env.Smooth(from, mid) && Smooth(mid)
    {
    }

    lemma SmoothLands(p: nat, onTrack: bool, t: nat, begun: nat, sought: nat)
      requires Wired() && FoundFrom(p, onTrack, t) && device.env.Smooth(begun, sought)
      ensures Lands(p, onTrack, t, begun, sought)
    {
    }

    lemma SoundIsWired()
      requires Sound()
      ensures Wired() && |Content()| == Size()
    {
    }

    lemma IsWired()
      requires Valid()
      ensures Sound() && Wired() && device.Valid()
    {
    }

    /** Rewinding finds the file: a FAT file's first cluster fits the half of its number that rewinding uses. */
    predicate Straight()
      requires Wired()
    {
      fat != null ==> fat.first < 0x1_0000
    }

    /** What OpenFile leaves: a cursor at the start of the file. */
    method Open()
      requires Sound() && device.Valid()
      modifies Parts()
      ensures Valid() && Cursor() == 0 && OnTrack()
      ensures device.env.asked == old(device.env.asked)
    {
      if fat != null {
        fat.Open();
      } else {
        raw.Open();
      }
    }

    /** A seek from the start of the file. */
    method SetFilePointer(offset: nat) returns (ok: bool)
      requires Valid() && offset < 0x8000_0000_0000_0000
      modifies Parts()
      ensures Valid() && old(device.env.asked) <= device.env.asked
      ensures ok == (offset < Size()) && Cursor() == if ok then offset else old(Cursor())
      ensures !ok ==> OnTrack() == old(OnTrack())
      ensures ok && Lands(old(Cursor()), old(OnTrack()), offset, old(device.env.asked), device.env.asked) ==> OnTrack()
    {
      hide FatFile.Sound, FatFile.OnChainAt, RawFile.Size, Device.Valid, Device.Sound, Oracle.Smooth;
      if fat != null {
        ok := fat.SetFilePointer(offset, FromStart);
      } else {
        ok := raw.SetFilePointer(offset, FromStart);
      }
    }

    /** ReadFile into memory from `at` on. */
    method ReadFile(buffer: array<byte>, at: nat, n: nat) returns (read: nat)
      requires Valid() && at + n <= buffer.Length && n < 0x1_0000_0000
      modifies buffer, Parts()
      ensures Valid() && old(device.env.asked) <= device.env.asked
      ensures read <= n && Cursor() == old(Cursor()) + read <= Size() && SameOutside(old(buffer[..]), buffer[..], at, n)
      ensures old(OnTrack()) ==> buffer[..] == Spliced(old(buffer[..]), at, Content()[old(Cursor())..Cursor()])
      ensures Smooth(old(device.env.asked)) && old(OnTrack()) ==> OnTrack() && (read == n <==> Whole(old(Cursor()), n))
    {
      hide FatFile.Sound, FatFile.OnChainAt, FatFile.ReadsTo, FatFile.NoStop, FatFile.Content, RawFile.Content,
        RawFile.Size, Device.Valid, Device.Sound, Oracle.Smooth, SameOutside, Spliced;
      ghost var b0, p, start := buffer[..], Cursor(), device.env.asked;
      if fat != null {
        fat.Known();
        ghost var good, request := OnTrack(), fat.Clamped(p, n);
        read := fat.ReadFile(buffer, at, n);
        OutsideWider(b0, buffer[..], at, request, n);
        if good && Smooth(start) {
          fat.WholeReadIff(p, request, read);
        }
      } else {
        read := raw.ReadFile(buffer, at, n);
        SplicedOutside(b0, at, raw.Content()[p..Cursor()], n);
      }
    }
  }

  function Zeros(n: nat): (r: seq<byte>)
    ensures |r| == n
  {
    seq(n, _ => 0)
  }

  /** memset to zero. */
  method Clear(ram: array<byte>, at: nat, n: nat)
    requires at + n <= ram.Length
    modifies ram
    ensures ram[..] == Spliced(old(ram[..]), at, Zeros(n))
  {
    for k := 0 to n
      invariant forall i :: 0 <= i < ram.Length ==> ram[i] == if at <= i < at + k then 0 else old(ram[i])
    {
      ram[at + k] := 0;
    }
  }
}

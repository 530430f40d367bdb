/** LoadMultiboot (src/loader.c): an image placed where its Multiboot header says. */
module Loader {
  import opened Bytes
  import opened Common
  import opened Env
  import opened Image
  import opened PhysMem
  import opened Placing

  /** The address fields of the Multiboot header (Multiboot Specification 0.6.96, section 3.1.3). */
  datatype Header = Header(magic: u32, hasAddress: bool, headerAddr: u32, loadAddr: u32, loadEndAddr: u32,
                           bssEndAddr: u32)

  /** What is to be done: `loaded` bytes of the file from `offset` on, and zeros up to `span` bytes. */
  datatype Plan = Plan(offset: nat, loaded: nat, span: nat)

  /** LoadMultiboot's validation of the header, found at hdrOffset in a file of `size` bytes. */
  function PlanOf(h: Header, hdrOffset: nat, size: nat): Option<Plan> {
    if h.loadAddr > h.headerAddr || h.headerAddr - h.loadAddr > hdrOffset then None else
    var offset := hdrOffset - (h.headerAddr - h.loadAddr);
    if h.loadEndAddr != 0 && h.loadEndAddr < h.loadAddr then None else
    var loadEnd := if h.loadEndAddr == 0 then (h.loadAddr + size - offset) % 0x1_0000_0000 else h.loadEndAddr;
    if h.bssEndAddr != 0 && h.bssEndAddr < h.loadAddr + size then None else
    var bssEnd := if h.bssEndAddr == 0 then loadEnd else h.bssEndAddr;
    var loaded := (loadEnd - h.loadAddr) % 0x1_0000_0000;
    Some(Plan(offset, if size < loaded then size else loaded, (bssEnd - h.loadAddr) % 0x1_0000_0000))
  }

  /** What the path behind a refused seek gives back: `BssEndAddr - Base`, which is a difference of 64 bits. */
  function GivenOnSeekError(h: Header, hdrOffset: nat, size: nat): nat
    requires PlanOf(h, hdrOffset, size).Some?
  {
    var offset := PlanOf(h, hdrOffset, size).value.offset;
    var loadEnd := if h.loadEndAddr == 0 then (h.loadAddr + size - offset) % 0x1_0000_0000 else h.loadEndAddr;
    ((if h.bssEndAddr == 0 then loadEnd else h.bssEndAddr) - h.loadAddr) % 0x1_0000_0000_0000_0000
  }

  /** The header is found in the loaded bytes where it says it is. */
  lemma PlanPlacesHeader(h: Header, hdrOffset: nat, size: nat)
    requires PlanOf(h, hdrOffset, size).Some?
    ensures var p := PlanOf(h, hdrOffset, size).value;
      && p.loaded <= p.span && p.loaded <= size && p.loaded < 0x1_0000_0000 && p.offset <= hdrOffset
      && (h.loadAddr + p.span < 0x1_0000_0000 ==> GivenOnSeekError(h, hdrOffset, size) == p.span)
      && h.loadAddr <= h.headerAddr && p.offset + (h.headerAddr - h.loadAddr) == hdrOffset
  {
  }

  /** What the header's fields say: where the image begins, how much of it is loaded, how long it is in memory. */
  function ImageOffset(h: Header, hdrOffset: nat): int { hdrOffset - h.headerAddr + h.loadAddr }

  function LoadLength(h: Header, hdrOffset: nat, size: nat): int {
    if h.loadEndAddr == 0 then (size - ImageOffset(h, hdrOffset)) % 0x1_0000_0000 else h.loadEndAddr - h.loadAddr
  }

  function MemoryLength(h: Header, hdrOffset: nat, size: nat): int {
    if h.bssEndAddr == 0 then LoadLength(h, hdrOffset, size) else h.bssEndAddr - h.loadAddr
  }

  /** The plan carries that out, as far as the file goes; and when there is one. */
  lemma PlanMeetsHeader(h: Header, hdrOffset: nat, size: nat)
    ensures PlanOf(h, hdrOffset, size).Some? <==>
              && h.loadAddr <= h.headerAddr <= h.loadAddr + hdrOffset
              && (h.loadEndAddr != 0 ==> h.loadAddr <= h.loadEndAddr)
              && (h.bssEndAddr != 0 ==> h.loadAddr + size <= h.bssEndAddr)
    ensures PlanOf(h, hdrOffset, size).Some? ==>
              var p := PlanOf(h, hdrOffset, size).value;
              && p.offset == ImageOffset(h, hdrOffset) && p.span == MemoryLength(h, hdrOffset, size)
              && p.loaded <= LoadLength(h, hdrOffset, size) && p.loaded <= size
              && (p.loaded == LoadLength(h, hdrOffset, size) || p.loaded == size)
  {
  }

  /** What the specification asks of the addresses. */
  predicate Consistent(h: Header, hdrOffset: nat) {
    && h.loadAddr <= h.headerAddr && h.headerAddr - h.loadAddr <= hdrOffset
    && (h.loadEndAddr == 0 || h.loadAddr <= h.loadEndAddr)
    && (h.bssEndAddr == 0 || (if h.loadEndAddr == 0 then h.loadAddr else h.loadEndAddr) <= h.bssEndAddr)
  }

  /**
   The end of the bss is compared with where the whole file would end, not with the end of what
   is loaded: a consistent header is accepted exactly when its bss reaches that far.
   */
  lemma ConsistentIsAcceptedIff(h: Header, hdrOffset: nat, size: nat)
    requires Consistent(h, hdrOffset)
    ensures PlanOf(h, hdrOffset, size).Some? <==> h.bssEndAddr == 0 || h.loadAddr + size <= h.bssEndAddr
    ensures var g := Header(1, true, 0x10_0000, 0x10_0000, 0x10_2000, 0x10_3000);
      Consistent(g, 0) && PlanOf(g, 0, 0x5000) == None
  {
  }

  datatype Outcome = NotForUs | Failed | Ready(address: nat)

  /**
   A loaded image: its range is allocated and holds the file's bytes, if the seek is known to have
   ended on its chain, and zeros.
   */
  ghost predicate InPlace(rs: seq<Region>, b: seq<byte>, rs': seq<Region>, b': seq<byte>, file: ImageFile, start: nat,
                          plan: Plan, a: nat, sure: bool)
    requires file.Sound()
  {
    && plan.offset + plan.loaded <= file.Size() && plan.loaded <= plan.span
    && a != 0 && (rs', a) == Alloc(rs, start, plan.span, 0, true) && (start != 0 ==> a == start)
    && a + plan.span <= |b|
    && (sure ==>
          b' == Spliced(b, a, file.Content()[plan.offset..plan.offset + plan.loaded] + Zeros(plan.span - plan.loaded)))
  }

  /**
   Memory is as the header's fields say.  The image's range, from its load address on if that is not 0,
   is allocated up to the end of the bss, or of what is loaded when that is 0.  If the seek is known to
   have ended on the chain, the range up to the load end, or up to the place of the file's last
   byte when that is 0, holds the file's bytes, and the rest zeros, as does what lies behind the file.
   */
  ghost predicate AsHeaderSays(rs: seq<Region>, b: seq<byte>, rs': seq<Region>, b': seq<byte>, content: seq<byte>,
                               h: Header, hdrOffset: nat, a: nat, sure: bool) {
    var (offset, n, m) := (ImageOffset(h, hdrOffset), LoadLength(h, hdrOffset, |content|),
                           MemoryLength(h, hdrOffset, |content|));
    && 0 <= offset && 0 <= n && 0 <= m && h.loadAddr <= h.headerAddr
    && a != 0 && (h.loadAddr != 0 ==> a == h.loadAddr) && (rs', a) == Alloc(rs, h.loadAddr, m, 0, true)
    && |b'| == |b| && a + m <= |b|
    && (sure ==>
          forall x {:trigger b'[x]} :: 0 <= x < |b| ==>
            b'[x] == if a <= x < a + m then
                       if x < a + n && offset + (x - a) < |content| then content[offset + (x - a)] else 0
                     else b[x])
  }

  lemma InPlaceMeetsHeader(rs: seq<Region>, b: seq<byte>, rs': seq<Region>, b': seq<byte>, file: ImageFile, h: Header,
                           hdrOffset: nat, a: nat, sure: bool)
    requires file.Sound() && PlanOf(h, hdrOffset, file.Size()).Some?
    requires InPlace(rs, b, rs', b', file, h.loadAddr, PlanOf(h, hdrOffset, file.Size()).value, a, sure) && |b'| == |b|
    ensures AsHeaderSays(rs, b, rs', b', file.Content(), h, hdrOffset, a, sure)
  {
    hide Alloc, PlanOf, ImageFile.Sound, ImageFile.Content, ImageOffset, LoadLength, MemoryLength;
    file.SoundIsWired();
    PlanMeetsHeader(h, hdrOffset, file.Size());
    PlanPlacesHeader(h, hdrOffset, file.Size());
    var plan := PlanOf(h, hdrOffset, file.Size()).value;
    if sure {
      ghost var d := file.Content()[plan.offset..plan.offset + plan.loaded] + Zeros(plan.span - plan.loaded);
      forall x | 0 <= x < |b|
        ensures b'[x] == if a <= x < a + plan.span then
                           if x < a + plan.loaded then file.Content()[plan.offset + (x - a)] else 0
                         else b[x]
      {
        assert a <= x < a + plan.span ==> b'[x] == d[x - a];
      }
    }
  }

  /** There is room for the image, and an undisturbed read delivers it. */
  ghost predicate Loadable(rs: seq<Region>, file: ImageFile, start: nat, plan: Plan)
    requires file.Sound()
  {
    Alloc(rs, start, plan.span, 0, true).1 != 0 && plan.offset < file.Size() && file.Whole(plan.offset, plan.loaded)
  }

  /** Nothing was taken, or all of it was given back but the bytes that rounding had added. */
  ghost predicate GivenBack(rs: seq<Region>, rs': seq<Region>, start: nat, size: nat) {
    rs' == rs
    || (var a := Alloc(rs, start, size, 0, true).1;
        a != 0 && Taken(rs, rs', a + size, Rounded(size) - size))
  }

  /** With a size that is a multiple of 4, giving back leaves the free set as it was. */
  lemma GivenBackWhole(rs: seq<Region>, rs': seq<Region>, start: nat, size: nat)
    requires GivenBack(rs, rs', start, size) && size % 4 == 0
    ensures forall x :: Covered(rs', x) <==> Covered(rs, x)
    ensures Total(rs') == Total(rs)
  {
    hide Covered, Total, Alloc;
  }

  class Loader {
    const phys: PhysMemory
    const ram: array<byte>

    constructor (phys: PhysMemory, ram: array<byte>)
      ensures this.phys == phys && this.ram == ram
    {
      this.phys, this.ram := phys, ram;
    }

    ghost predicate Valid()
      reads phys
    {
      && Disjoint(phys.regions) && Above1MB(phys.regions) && Addressable(phys.regions, LAST_BYTE)
      && ram.Length == ADDRESS_SPACE
    }

    /**
     LoadMultiboot up to the module step.  When it gets there, memory from the load address to the
     end of the bss is the file from the image's offset on, followed by zeros, provided that the seek
     ends on the file's chain: whatever fails if it reads nothing from the table, and else if nothing
     fails until it is done (`sought`).  When loading fails, the free set is as before but for
     rounding, and in any case only bytes that were free change.
     */
    method LoadMultiboot(file: ImageFile, h: Header, hdrOffset: u32) returns (r: Outcome, ghost sought: nat)
      requires Valid() && file.Valid()
      modifies phys, ram, file.Parts()
      ensures file.Valid() && old(file.device.env.asked) <= sought <= file.device.env.asked
      ensures r.NotForUs? <==> h.magic == 0 || !h.hasAddress
      ensures r.NotForUs? ==> phys.regions == old(phys.regions) && ram[..] == old(ram[..])
      ensures OnlyFreeChanged(old(phys.regions), old(ram[..]), ram[..])
      ensures var plan := PlanOf(h, hdrOffset, file.Size());
        && (r.Failed? ==> if plan.None? then phys.regions == old(phys.regions)
                          else GivenBack(old(phys.regions), phys.regions, h.loadAddr, plan.value.span))
        && (r.Ready? ==>
              && plan.Some?
              && InPlace(old(phys.regions), old(ram[..]), phys.regions, ram[..], file, h.loadAddr, plan.value,
                         r.address,
                         file.Lands(old(file.Cursor()), old(file.OnTrack()), plan.value.offset,
                                    old(file.device.env.asked), sought)))
        && (r.Ready? ==> 0 <= ImageOffset(h, hdrOffset))
        && (r.Ready? ==>
              AsHeaderSays(old(phys.regions), old(ram[..]), phys.regions, ram[..], file.Content(), h, hdrOffset,
                           r.address, file.Lands(old(file.Cursor()), old(file.OnTrack()), ImageOffset(h, hdrOffset),
                                                 old(file.device.env.asked), sought)))
        && (file.Smooth(old(file.device.env.asked)) && !r.NotForUs? &&
            (plan.Some? ==> old(file.FoundFrom(file.Cursor(), file.OnTrack(), plan.value.offset))) ==>
              (r.Ready? <==> plan.Some? && Loadable(old(phys.regions), file, h.loadAddr, plan.value)))
    {
      hide PlanOf, Alloc, Covered, Disjoint, Above1MB, Addressable, Total, Taken, Spliced, GivenBack, OnlyFreeChanged,
        InPlace, AsHeaderSays, Loadable, ImageOffset, ImageFile.Valid, ImageFile.OnTrack, ImageFile.FoundFrom,
        ImageFile.Lands, ImageFile.Smooth;
      NothingChanged(phys.regions, ram[..]);
      sought := file.device.env.asked;
      if h.magic == 0 || !h.hasAddress {
        return NotForUs, sought;
      }
      file.IsWired();
      var plan := PlanOf(h, hdrOffset, file.Size());
      if plan.None? {
        return Failed, sought;
      }
      PlanPlacesHeader(h, hdrOffset, file.Size());
      ghost var rs, b0, before, p, on := phys.regions, ram[..], file.device.env.asked, file.Cursor(), file.OnTrack();
      r, sought := Place(file, h.loadAddr, plan.value, GivenOnSeekError(h, hdrOffset, file.Size()));
      if r.Ready? {
        PlanMeetsHeader(h, hdrOffset, file.Size());
        InPlaceMeetsHeader(rs, b0, phys.regions, ram[..], file, h, hdrOffset, r.address,
                           file.Lands(p, on, plan.value.offset, before, sought));
      }
    }

    /** Allocation, transfer and clearing; `given` is the size that the first error path gives back. */
    method Place(file: ImageFile, start: nat, plan: Plan, given: nat) returns (r: Outcome, ghost sought: nat)
      requires Valid() && file.Valid() && plan.loaded <= plan.span && plan.loaded < 0x1_0000_0000
      requires plan.offset < 0x1_0000_0000 && start < 0x1_0000_0000
      requires start + plan.span < 0x1_0000_0000 ==> given == plan.span
      modifies phys, ram, file.Parts()
      ensures file.Valid() && !r.NotForUs? && old(file.device.env.asked) <= sought <= file.device.env.asked
      ensures OnlyFreeChanged(old(phys.regions), old(ram[..]), ram[..])
      ensures r.Failed? ==> GivenBack(old(phys.regions), phys.regions, start, plan.span)
      ensures r.Ready? ==> InPlace(old(phys.regions), old(ram[..]), phys.regions, ram[..], file, start, plan, r.address,
                                   file.Lands(old(file.Cursor()), old(file.OnTrack()), plan.offset,
                                              old(file.device.env.asked), sought))
      ensures file.Smooth(old(file.device.env.asked)) &&
              old(file.FoundFrom(file.Cursor(), file.OnTrack(), plan.offset)) ==>
                (r.Ready? <==> Loadable(old(phys.regions), file, start, plan))
    {
      hide Alloc, Add, Covered, Disjoint, Above1MB, Addressable, Total, Taken, Spliced, GivenBack, OnlyFreeChanged,
        SameOutside, Free, Zeros, ImageFile.Valid, ImageFile.OnTrack, ImageFile.FoundFrom, ImageFile.Lands,
        ImageFile.Whole, ImageFile.Content, Oracle.Smooth;
      file.IsWired();
      ghost var rs, b0 := phys.regions, ram[..];
      AllocIsFree(rs, start, plan.span, 0, LAST_BYTE);
      NothingChanged(rs, b0);
      NothingTaken(rs, start, plan.span);
      var mem := phys.PhysAlloc(start, plan.span, 0, true);
      sought := file.device.env.asked;
      if mem == 0 {
        return Failed, sought;
      }
      AllocatedIsFree(rs, start, plan.span);
      ReturnedIsGivenBack(rs, start, plan.span);
      var found, ok;
      found, ok, sought := SeekAndRead(file, mem, plan);
      ChangesAdd(rs, b0, b0, ram[..], mem, plan.span);
      if !found {
        phys.PhysFree(mem, given, true);
        return Failed, sought;
      }
      if !ok {
        phys.PhysFree(mem, plan.span, true);
        return Failed, sought;
      }
      return Ready(mem), sought;
    }

    /** The image's bytes are looked for and read; what follows them is cleared. */
    method SeekAndRead(file: ImageFile, mem: nat, plan: Plan) returns (found: bool, ok: bool, ghost sought: nat)
      requires file.Valid() && plan.loaded <= plan.span && plan.loaded < 0x1_0000_0000 && plan.offset < 0x1_0000_0000
      requires mem + plan.span <= ram.Length
      modifies ram, file.Parts()
      ensures file.Valid() && old(file.device.env.asked) <= sought <= file.device.env.asked
      ensures SameOutside(old(ram[..]), ram[..], mem, plan.span)
      ensures ok ==> found && plan.offset + plan.loaded <= file.Size()
      ensures ok && file.Lands(old(file.Cursor()), old(file.OnTrack()), plan.offset,
                               old(file.device.env.asked), sought) ==>
                ram[..] == Spliced(old(ram[..]), mem,
                                   file.Content()[plan.offset..plan.offset + plan.loaded]
                                   + Zeros(plan.span - plan.loaded))
      ensures file.Smooth(old(file.device.env.asked)) &&
              old(file.FoundFrom(file.Cursor(), file.OnTrack(), plan.offset)) ==>
                ok == (plan.offset < file.Size() && file.Whole(plan.offset, plan.loaded))
    {
      hide Spliced, SameOutside, Zeros, ImageFile.Valid, ImageFile.OnTrack, ImageFile.FoundFrom, ImageFile.Lands,
        ImageFile.Whole, ImageFile.Content, Oracle.Smooth;
      file.IsWired();
      Untouched(ram[..], mem, plan.span);
      ghost var before := file.device.env.asked;
      found := file.SetFilePointer(plan.offset);
      sought := file.device.env.asked;
      if !found {
        return false, false, sought;
      }
      ok := Transfer(file, mem, plan.loaded, plan.span);
      if file.Smooth(before) {
        file.SmoothSteps(before, sought);
        if old(file.FoundFrom(file.Cursor(), file.OnTrack(), plan.offset)) {
          file.SmoothLands(old(file.Cursor()), old(file.OnTrack()), plan.offset, before, sought);
        }
      }
    }

    /** The first bytes of a range are read from the file's cursor on, and the rest cleared. */
    method Transfer(file: ImageFile, mem: nat, loaded: nat, span: nat) returns (ok: bool)
      requires file.Valid() && loaded <= span && loaded < 0x1_0000_0000 && mem + span <= ram.Length
      modifies ram, file.Parts()
      ensures file.Valid() && old(file.device.env.asked) <= file.device.env.asked
      ensures SameOutside(old(ram[..]), ram[..], mem, span)
      ensures ok ==> old(file.Cursor()) + loaded <= file.Size()
      ensures ok && old(file.OnTrack()) ==>
                var p := old(file.Cursor());
                ram[..] == Spliced(old(ram[..]), mem, file.Content()[p..p + loaded] + Zeros(span - loaded))
      ensures file.Smooth(old(file.device.env.asked)) && old(file.OnTrack()) ==>
                ok == file.Whole(old(file.Cursor()), loaded)
    {
      hide ImageFile.Valid, ImageFile.OnTrack, ImageFile.Whole, ImageFile.Content, Oracle.Smooth, Spliced,
        SameOutside, Zeros;
      file.IsWired();
      ghost var b0 := ram[..];
      var read := file.ReadFile(ram, mem, loaded);
      if read != loaded {
        OutsideWider(b0, ram[..], mem, loaded, span);
        return false;
      }
      ghost var b1 := ram[..];
      Clear(ram, mem + loaded, span - loaded);
      SplicedOutside(b1, mem + loaded, Zeros(span - loaded), span - loaded);
      OutsideWider(b0, b1, mem, loaded, span);
      OutsideJoins(b0, b1, ram[..], mem, span, mem + loaded, span - loaded);
      if old(file.OnTrack()) {
        SplicedTwice(b0, mem, file.Content()[old(file.Cursor())..old(file.Cursor()) + loaded], Zeros(span - loaded));
      }
      return true;
    }

    lemma AllocatedIsFree(rs: seq<Region>, start: nat, size: nat)
      requires Disjoint(rs) && Above1MB(rs) && Addressable(rs, LAST_BYTE) && start < 0x1_0000_0000
      requires Alloc(rs, start, size, 0, true).1 != 0
      ensures Free(rs, Alloc(rs, start, size, 0, true).1, size)
    {
      AllocIsFree(rs, start, size, 0, LAST_BYTE);
    }

    lemma NothingTaken(rs: seq<Region>, start: nat, size: nat)
      ensures GivenBack(rs, rs, start, size)
    {
    }

    lemma ReturnedIsGivenBack(rs: seq<Region>, start: nat, size: nat)
      requires Disjoint(rs) && Above1MB(rs) && start < 0x1_0000_0000 && Alloc(rs, start, size, 0, true).1 != 0
      ensures var (rs', a) := Alloc(rs, start, size, 0, true);
        GivenBack(rs, Add(rs', a, size, true).0, start, size)
    {
      FreeAfterAlloc(rs, start, size, 0);
    }
  }

  /** The header is in memory at its address, as far as it lies within what was loaded. */
  lemma HeaderIsInPlace(before: seq<byte>, after: seq<byte>, content: seq<byte>, h: Header, hdrOffset: nat, k: nat)
    requires PlanOf(h, hdrOffset, |content|).Some?
    requires var p := PlanOf(h, hdrOffset, |content|).value;
      && p.offset + p.loaded <= |content| && p.loaded <= p.span && h.loadAddr + p.span <= |before|
      && after == Spliced(before, h.loadAddr, content[p.offset..p.offset + p.loaded] + Zeros(p.span - p.loaded))
      && h.headerAddr - h.loadAddr + k < p.loaded
    ensures h.headerAddr + k < |after| && hdrOffset + k < |content| && after[h.headerAddr + k] == content[hdrOffset + k]
  {
    hide PlanOf;
    PlanPlacesHeader(h, hdrOffset, |content|);
    var p := PlanOf(h, hdrOffset, |content|).value;
    var x := h.headerAddr - h.loadAddr + k;
    assert after[h.loadAddr + x] == content[p.offset..p.offset + p.loaded][x] == content[p.offset + x];
  }
}

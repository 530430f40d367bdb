/** LoadCOFF's section loop (src/loader.c): placement, zero fill, and giving everything back on failure. */
module Coff {
  import opened Bytes
  import opened Common
  import opened Env
  import opened Image
  import opened PhysMem
  import opened Placing

  /** The fields of a COFF section header that LoadCOFF uses. */
  datatype Section = Section(address: u32, size: u32, rawSize: u32, rawPointer: u32, bss: bool)

  /** PE addresses are relative; a plain COFF section has no virtual size, and a bss one no raw data. */
  function Adjusted(s: Section, isPE: bool, imageBase: u32): Section {
    if isPE then s.(address := (s.address + imageBase) % 0x1_0000_0000)
    else s.(size := s.rawSize, rawSize := if s.bss then 0 else s.rawSize)
  }

  function AllAdjusted(ss: seq<Section>, isPE: bool, imageBase: u32): (r: seq<Section>)
    ensures |r| == |ss|
  {
    seq(|ss|, i requires 0 <= i < |ss| => Adjusted(ss[i], isPE, imageBase))
  }

  // ---------------------------------------------------------------- where sections go

  /** The free list when the first n sections have been allocated. */
  function Rest(rs: seq<Region>, ss: seq<Section>, n: nat): seq<Region>
    requires n <= |ss|
  {
    if n == 0 then rs else Alloc(Rest(rs, ss, n - 1), ss[n - 1].address, ss[n - 1].size, 0, true).0
  }

  /** The address that section k gets after those before it. */
  function Spot(rs: seq<Region>, ss: seq<Section>, k: nat): nat
    requires k < |ss|
  {
    Alloc(Rest(rs, ss, k), ss[k].address, ss[k].size, 0, true).1
  }

  /** There is room for the first n sections. */
  predicate Found(rs: seq<Region>, ss: seq<Section>, n: nat)
    requires n <= |ss|
  {
    forall k :: 0 <= k < n ==> Spot(rs, ss, k) != 0
  }

  /** What PhysAlloc took for section k. */
  function Range(rs: seq<Region>, ss: seq<Section>, k: nat): Region
    requires k < |ss|
  {
    Region(Spot(rs, ss, k), Rounded(ss[k].size))
  }

  ghost predicate Occupied(rs: seq<Region>, ss: seq<Section>, n: nat, x: int)
    requires n <= |ss|
  {
    exists k :: 0 <= k < n && In(Range(rs, ss, k), x)
  }

  function Sizes(ss: seq<Section>, n: nat): nat
    requires n <= |ss|
  {
    if n == 0 then 0 else Sizes(ss, n - 1) + ss[n - 1].size
  }

  function RoundedSizes(ss: seq<Section>, n: nat): nat
    requires n <= |ss|
  {
    if n == 0 then 0 else RoundedSizes(ss, n - 1) + Rounded(ss[n - 1].size)
  }

  /** Rounding adds at most three bytes to a section. */
  lemma {:induction false} RoundingIsSmall(ss: seq<Section>, n: nat)
    requires n <= |ss|
    ensures Sizes(ss, n) <= RoundedSizes(ss, n) <= Sizes(ss, n) + 3 * n
    ensures (forall k :: 0 <= k < n ==> ss[k].size % 4 == 0) ==> RoundedSizes(ss, n) == Sizes(ss, n)
  {
    if n > 0 {
      RoundingIsSmall(ss, n - 1);
    }
  }

  /** What is taken for one section. */
  lemma SpotTakes(rs: seq<Region>, ss: seq<Section>, k: nat)
    requires k < |ss| && Disjoint(Rest(rs, ss, k)) && Above1MB(Rest(rs, ss, k)) && Spot(rs, ss, k) != 0
    ensures var (rest, r) := (Rest(rs, ss, k), Range(rs, ss, k));
      && Taken(rest, Rest(rs, ss, k + 1), r.addr, r.size) && (forall x :: In(r, x) ==> Covered(rest, x))
      && ONE_MB <= r.addr && 0 < ss[k].size && (ss[k].address != 0 ==> r.addr == ss[k].address)
  {
    hide Alloc, Disjoint, Above1MB, Total;
    var rest, r := Rest(rs, ss, k), Range(rs, ss, k);
    AllocTakesThere(rest, ss[k].address, ss[k].size, 0);
    var i :| 0 <= i < |rest| && rest[i].addr <= r.addr && r.End() <= rest[i].End();
    forall x | In(r, x) ensures Covered(rest, x) {
      assert In(rest[i], x);
    }
  }

  /** While there is room, the list loses exactly the ranges of the sections. */
  lemma {:induction false} RestMeets(rs: seq<Region>, ss: seq<Section>, n: nat)
    requires n <= |ss| && Disjoint(rs) && Above1MB(rs) && Found(rs, ss, n)
    ensures var rest := Rest(rs, ss, n);
      && Disjoint(rest) && Above1MB(rest) && Total(rest) + RoundedSizes(ss, n) == Total(rs)
      && forall x :: Covered(rest, x) <==> Covered(rs, x) && !Occupied(rs, ss, n, x)
  {
    hide *;
    if n == 0 {
      RestOfNone(rs, ss);
    } else {
      FoundBefore(rs, ss, n);
      RestMeets(rs, ss, n - 1);
      SpotTakes(rs, ss, n - 1);
      OneMoreTaken(rs, ss, n - 1, Rest(rs, ss, n - 1), Rest(rs, ss, n));
    }
  }

  lemma FoundBefore(rs: seq<Region>, ss: seq<Section>, n: nat)
    requires 0 < n <= |ss| && Found(rs, ss, n)
    ensures Found(rs, ss, n - 1) && Spot(rs, ss, n - 1) != 0
  {
    hide Spot;
  }

  lemma RestOfNone(rs: seq<Region>, ss: seq<Section>)
    ensures Rest(rs, ss, 0) == rs && RoundedSizes(ss, 0) == 0 && forall x :: !Occupied(rs, ss, 0, x)
  {
  }

  lemma OneMoreTaken(rs: seq<Region>, ss: seq<Section>, n: nat, rest: seq<Region>, rest': seq<Region>)
    requires n < |ss| && Total(rest) + RoundedSizes(ss, n) == Total(rs)
    requires forall x :: Covered(rest, x) <==> Covered(rs, x) && !Occupied(rs, ss, n, x)
    requires Taken(rest, rest', Range(rs, ss, n).addr, Range(rs, ss, n).size)
    ensures Disjoint(rest') && Above1MB(rest') && Total(rest') + RoundedSizes(ss, n + 1) == Total(rs)
    ensures forall x :: Covered(rest', x) <==> Covered(rs, x) && !Occupied(rs, ss, n + 1, x)
  {
    hide Covered, Disjoint, Above1MB, Total, Spot;
    forall x ensures Occupied(rs, ss, n + 1, x) <==> Occupied(rs, ss, n, x) || In(Range(rs, ss, n), x) {
    }
  }

  /** Sections' ranges were free and are apart. */
  lemma RangesApart(rs: seq<Region>, ss: seq<Section>, j: nat, k: nat)
    requires j < k < |ss| && Disjoint(rs) && Above1MB(rs) && Found(rs, ss, k) && Spot(rs, ss, k) != 0
    ensures forall x :: !(In(Range(rs, ss, j), x) && In(Range(rs, ss, k), x))
  {
    hide Covered, Disjoint, Above1MB, Total, Spot, Range;
    RestMeets(rs, ss, k);
    SpotTakes(rs, ss, k);
  }

  lemma RangeWasFree(rs: seq<Region>, ss: seq<Section>, k: nat)
    requires k < |ss| && Disjoint(rs) && Above1MB(rs) && Found(rs, ss, k) && Spot(rs, ss, k) != 0
    ensures forall x :: In(Range(rs, ss, k), x) ==> Covered(rs, x)
    ensures ONE_MB <= Spot(rs, ss, k) && 0 < ss[k].size && (ss[k].address != 0 ==> Spot(rs, ss, k) == ss[k].address)
    ensures Addressable(rs, LAST_BYTE) ==> Spot(rs, ss, k) + Rounded(ss[k].size) <= LAST_BYTE
  {
    hide Covered, Disjoint, Above1MB, Total, Spot;
    RestMeets(rs, ss, k);
    SpotTakes(rs, ss, k);
    assert In(Range(rs, ss, k), Spot(rs, ss, k) + Rounded(ss[k].size) - 1);
  }

  /** PhysAlloc finds no room for nothing: once sections are placed, none of them is empty. */
  lemma EmptySectionsAreRefused(rs: seq<Region>, ss: seq<Section>, n: nat)
    requires n <= |ss| && Found(rs, ss, n)
    ensures forall k :: 0 <= k < n ==> ss[k].size != 0
  {
    forall k | 0 <= k < n ensures ss[k].size != 0 {
      assert Spot(rs, ss, k) != 0;
    }
  }

  // ---------------------------------------------------------------- giving back

  /** PhysFree of the first n sections, at the addresses that their headers ask for. */
  function AddAll(rs: seq<Region>, ss: seq<Section>, n: nat): seq<Region>
    requires n <= |ss|
  {
    if n == 0 then rs else Add(AddAll(rs, ss, n - 1), ss[n - 1].address, ss[n - 1].size, true).0
  }

  /** The list when section i has failed: it had no room, or has been given back. */
  function Stopped(rs: seq<Region>, ss: seq<Section>, i: nat): seq<Region>
    requires i < |ss|
  {
    if Spot(rs, ss, i) == 0 then Rest(rs, ss, i) else Add(Rest(rs, ss, i + 1), Spot(rs, ss, i), ss[i].size, true).0
  }

  /** What a load that fails at section i leaves free. */
  function RolledBack(rs: seq<Region>, ss: seq<Section>, i: nat): seq<Region>
    requires i < |ss|
  {
    AddAll(Stopped(rs, ss, i), ss, i)
  }

  /** x is one of the at most three bytes that rounding added to section k. */
  predicate InPad(rs: seq<Region>, ss: seq<Section>, k: nat, x: int)
    requires k < |ss|
  {
    Spot(rs, ss, k) != 0 && Spot(rs, ss, k) + ss[k].size <= x < Spot(rs, ss, k) + Rounded(ss[k].size)
  }

  ghost predicate Padding(rs: seq<Region>, ss: seq<Section>, n: nat, x: int)
    requires n <= |ss|
  {
    exists k :: 0 <= k < n && InPad(rs, ss, k, x)
  }

  /** Everything that was free is free, but the bytes that rounding added to the sections up to i. */
  ghost predicate GivenBack(rs: seq<Region>, rs': seq<Region>, ss: seq<Section>, i: nat)
    requires i < |ss|
  {
    forall x :: Covered(rs', x) <==> Covered(rs, x) && !Padding(rs, ss, i + 1, x)
  }

  /** No section of the first n asks for address 0, which PhysAlloc takes for "anywhere". */
  predicate Fixed(ss: seq<Section>, n: nat)
    requires n <= |ss|
  {
    forall k :: 0 <= k < n ==> ss[k].address != 0
  }

  /** x is in the range that PhysFree is told of for section k. */
  predicate Named(ss: seq<Section>, k: nat, x: int)
    requires k < |ss|
  {
    ss[k].address <= x < ss[k].address + ss[k].size
  }

  lemma {:induction false} AddAllCovers(rs: seq<Region>, ss: seq<Section>, n: nat, x: int)
    requires n <= |ss|
    ensures Covered(AddAll(rs, ss, n), x) <==>
              Covered(rs, x) || (ONE_MB <= x && exists k :: 0 <= k < n && Named(ss, k, x))
  {
    hide Covered, Add;
    if n > 0 {
      AddAllCovers(rs, ss, n - 1, x);
      AddCovers(AddAll(rs, ss, n - 1), ss[n - 1].address, ss[n - 1].size, true, x);
      NodeGiven(AddAll(rs, ss, n - 1), ss[n - 1].address, ss[n - 1].size);
      assert Named(ss, n - 1, x) <==> ss[n - 1].address <= x < ss[n - 1].address + ss[n - 1].size;
    }
  }

  lemma NodeGiven(rs: seq<Region>, start: nat, length: nat)
    ensures Add(rs, start, length, true).1
  {
  }

  /** What is free when section i has been dealt with. */
  lemma StoppedCovers(rs: seq<Region>, ss: seq<Section>, i: nat)
    requires i < |ss| && Disjoint(rs) && Above1MB(rs) && Found(rs, ss, i)
    ensures var s := Stopped(rs, ss, i);
      && Disjoint(s) && Above1MB(s)
      && Total(s) + RoundedSizes(ss, i) + (if Spot(rs, ss, i) == 0 then 0 else Rounded(ss[i].size) - ss[i].size)
         == Total(rs)
      && forall x :: Covered(s, x) <==> Covered(rs, x) && !Occupied(rs, ss, i, x) && !InPad(rs, ss, i, x)
  {
    hide Covered, Disjoint, Above1MB, Total, Alloc, Add, Occupied;
    RestMeets(rs, ss, i);
    if Spot(rs, ss, i) != 0 {
      FreeAfterAlloc(Rest(rs, ss, i), ss[i].address, ss[i].size, 0);
    }
  }

  /** Ranges at their own addresses join the free list one by one. */
  lemma {:induction false} FixedSectionsReturn(rs: seq<Region>, ss: seq<Section>, i: nat, n: nat)
    requires n <= i < |ss| && Disjoint(rs) && Above1MB(rs) && Found(rs, ss, i) && Fixed(ss, n)
    ensures var (s, r) := (Stopped(rs, ss, i), AddAll(Stopped(rs, ss, i), ss, n));
      && Disjoint(r) && Above1MB(r) && Total(r) == Total(s) + Sizes(ss, n)
      && forall x :: Covered(r, x) <==> Covered(s, x) || exists k :: 0 <= k < n && Named(ss, k, x)
  {
    hide Covered, Disjoint, Above1MB, Total, Add, Spot, Stopped, Insert;
    StoppedCovers(rs, ss, i);
    if n > 0 {
      FixedSectionsReturn(rs, ss, i, n - 1);
      var r, k := AddAll(Stopped(rs, ss, i), ss, n - 1), n - 1;
      RangeWasFree(rs, ss, k);
      forall x | Covered(r, x) ensures !Named(ss, k, x) {
        NamedTwice(rs, ss, i, n - 1, x);
      }
      AddAbove(r, ss[k].address, ss[k].size);
      JoinFree(r, Region(ss[k].address, ss[k].size));
      assert forall x :: In(Region(ss[k].address, ss[k].size), x) <==> Named(ss, k, x);
    }
  }

  lemma AddAbove(rs: seq<Region>, start: nat, length: nat)
    requires ONE_MB <= start && 0 < length
    ensures Add(rs, start, length, true) == Insert(rs, Region(start, length), true)
  {
  }

  /** No byte of section k is free while k itself is to be given back. */
  lemma NamedTwice(rs: seq<Region>, ss: seq<Section>, i: nat, k: nat, x: int)
    requires k < i < |ss| && Disjoint(rs) && Above1MB(rs) && Found(rs, ss, i) && Fixed(ss, k + 1)
    requires Covered(Stopped(rs, ss, i), x) || exists j :: 0 <= j < k && Named(ss, j, x)
    ensures !Named(ss, k, x)
  {
    hide Covered, Disjoint, Above1MB, Total, Spot, Stopped, Rest;
    StoppedCovers(rs, ss, i);
    RangeWasFree(rs, ss, k);
    if Named(ss, k, x) {
      assert In(Range(rs, ss, k), x);
      assert Occupied(rs, ss, i, x);
      var j :| 0 <= j < k && Named(ss, j, x);
      RangeWasFree(rs, ss, j);
      assert In(Range(rs, ss, j), x);
      RangesApart(rs, ss, j, k);
    }
  }

  /** With fixed addresses a failed load leaves the free set as it was, but for the padding. */
  lemma FixedIsGivenBack(rs: seq<Region>, ss: seq<Section>, i: nat)
    requires i < |ss| && Disjoint(rs) && Above1MB(rs) && Found(rs, ss, i) && Fixed(ss, i)
    ensures GivenBack(rs, RolledBack(rs, ss, i), ss, i)
    ensures Disjoint(RolledBack(rs, ss, i)) && Above1MB(RolledBack(rs, ss, i))
    ensures Total(rs) - 3 * (i + 1) <= Total(RolledBack(rs, ss, i)) <= Total(rs)
    ensures (forall k :: 0 <= k <= i ==> ss[k].size % 4 == 0) ==> Total(RolledBack(rs, ss, i)) == Total(rs)
  {
    hide Covered, Disjoint, Above1MB, Total, Spot, Stopped, Rest, AddAll, Found;
    StoppedCovers(rs, ss, i);
    FixedSectionsReturn(rs, ss, i, i);
    RoundingIsSmall(ss, i);
    forall x ensures Covered(RolledBack(rs, ss, i), x) <==> Covered(rs, x) && !Padding(rs, ss, i + 1, x) {
      OneByte(rs, ss, i, x);
    }
  }

  lemma OneByte(rs: seq<Region>, ss: seq<Section>, i: nat, x: int)
    requires i < |ss| && Disjoint(rs) && Above1MB(rs) && Found(rs, ss, i) && Fixed(ss, i)
    ensures (Covered(rs, x) && !Occupied(rs, ss, i, x) && !InPad(rs, ss, i, x))
         || (exists k :: 0 <= k < i && Named(ss, k, x))
       <==> Covered(rs, x) && !Padding(rs, ss, i + 1, x)
  {
    hide Covered, Disjoint, Above1MB, Total, Spot, Rest;
    if Covered(rs, x) && !Padding(rs, ss, i + 1, x) && Occupied(rs, ss, i, x) {
      var k :| 0 <= k < i && In(Range(rs, ss, k), x);
      RangeWasFree(rs, ss, k);
      assert !InPad(rs, ss, k, x);
      assert Named(ss, k, x);
    }
    forall k | 0 <= k < i && InPad(rs, ss, k, x) ensures Occupied(rs, ss, i, x) {
      assert In(Range(rs, ss, k), x);
    }
    if k :| 0 <= k < i && Named(ss, k, x) {
      RangeWasFree(rs, ss, k);
      NamedIsNoPadding(rs, ss, i, k, x);
    }
  }

  /** A byte of section k is in no section's padding. */
  lemma NamedIsNoPadding(rs: seq<Region>, ss: seq<Section>, i: nat, k: nat, x: int)
    requires k < i < |ss| && Disjoint(rs) && Above1MB(rs) && Found(rs, ss, i)
    requires Spot(rs, ss, k) <= x < Spot(rs, ss, k) + ss[k].size
    ensures Covered(rs, x) && !Padding(rs, ss, i + 1, x)
  {
    hide Covered, Disjoint, Above1MB, Total, Spot, Rest;
    RangeWasFree(rs, ss, k);
    assert In(Range(rs, ss, k), x);
    if Padding(rs, ss, i + 1, x) {
      var j :| 0 <= j < i + 1 && InPad(rs, ss, j, x);
      assert In(Range(rs, ss, j), x) && j != k;
      if j < k { RangesApart(rs, ss, j, k); } else { RangesApart(rs, ss, k, j); }
    }
  }

  /** Of the sections before n that ask for address 0, the one that ends highest. */
  lemma {:induction false} HighestZero(rs: seq<Region>, ss: seq<Section>, n: nat) returns (z: nat)
    requires n <= |ss| && !Fixed(ss, n)
    ensures z < n && ss[z].address == 0
    ensures forall k :: 0 <= k < n && ss[k].address == 0 ==>
              Spot(rs, ss, k) + ss[k].size <= Spot(rs, ss, z) + ss[z].size
  {
    hide Spot;
    if Fixed(ss, n - 1) {
      z := n - 1;
    } else {
      z := HighestZero(rs, ss, n - 1);
      if ss[n - 1].address == 0 && Spot(rs, ss, z) + ss[z].size < Spot(rs, ss, n - 1) + ss[n - 1].size {
        z := n - 1;
      }
    }
  }

  /**
   A section that asked for address 0 was placed at or above 1 MB but is given back from 0 on, which
   ends at least 1 MB lower: the last byte of the one that ends highest is never free again.
   */
  lemma LastByteIsLost(rs: seq<Region>, ss: seq<Section>, i: nat, z: nat)
    requires z < i < |ss| && Disjoint(rs) && Above1MB(rs) && Found(rs, ss, i) && ss[z].address == 0
    requires forall k :: 0 <= k < i && ss[k].address == 0 ==>
              Spot(rs, ss, k) + ss[k].size <= Spot(rs, ss, z) + ss[z].size
    ensures var x := Spot(rs, ss, z) + ss[z].size - 1;
      Covered(rs, x) && !Padding(rs, ss, i + 1, x) && !Covered(RolledBack(rs, ss, i), x)
  {
    hide Covered, Disjoint, Above1MB, Total, Spot, Rest, Stopped, AddAll;
    RangeWasFree(rs, ss, z);
    var x := Spot(rs, ss, z) + ss[z].size - 1;
    assert In(Range(rs, ss, z), x);
    NamedIsNoPadding(rs, ss, i, z, x);
    StoppedCovers(rs, ss, i);
    AddAllCovers(Stopped(rs, ss, i), ss, i, x);
    forall k | 0 <= k < i ensures !Named(ss, k, x) {
      RangeWasFree(rs, ss, k);
      if Named(ss, k, x) && ss[k].address != 0 {
        assert In(Range(rs, ss, k), x) && k != z;
        if k < z { RangesApart(rs, ss, k, z); } else { RangesApart(rs, ss, z, k); }
      }
    }
  }

  /**
   A load that fails at section i gives everything back, but for the padding, if and only if no
   section before i asks for address 0.
   */
  lemma GivenBackIff(rs: seq<Region>, ss: seq<Section>, i: nat)
    requires i < |ss| && Disjoint(rs) && Above1MB(rs) && Found(rs, ss, i)
    ensures GivenBack(rs, RolledBack(rs, ss, i), ss, i) <==> Fixed(ss, i)
  {
    hide Covered, Disjoint, Above1MB, Total, Spot, RolledBack, Found;
    if Fixed(ss, i) {
      FixedIsGivenBack(rs, ss, i);
    } else {
      var z := HighestZero(rs, ss, i);
      LastByteIsLost(rs, ss, i, z);
    }
  }

  /** Giving back from address 0 on may also free memory that nobody had: that of a 2 MB section, from 1 MB on. */
  lemma OthersMemoryIsFreed()
    ensures var rs := [Region(0x40_0000, 0x40_0000)];
      var ss := [Section(0, 0x20_0000, 0, 0, true), Section(0x1000, 4, 0, 0, true)];
      && Found(rs, ss, 1) && Spot(rs, ss, 1) == 0
      && Covered(RolledBack(rs, ss, 1), 0x10_0000) && !Covered(rs, 0x10_0000)
  {
    var rs, ss := [Region(0x40_0000, 0x40_0000)], [Section(0, 0x20_0000, 0, 0, true), Section(0x1000, 4, 0, 0, true)];
    assert Rest(rs, ss, 0) == rs && Rest(rs, ss, 1) == [Region(0x60_0000, 0x20_0000)];
    assert Spot(rs, ss, 0) == 0x40_0000;
    AddAllCovers(Stopped(rs, ss, 1), ss, 1, 0x10_0000);
    assert Named(ss, 0, 0x10_0000);
  }

  // ---------------------------------------------------------------- what sections write

  /** The raw data is in the file. */
  predicate Readable(s: Section, length: nat) {
    s.rawSize == 0 || (s.rawPointer < length && s.rawPointer + s.rawSize <= length)
  }

  /** How much a section writes: its raw data may be longer than the section. */
  function Extent(s: Section): nat { if s.size < s.rawSize then s.rawSize else s.size }

  /** The raw data, then zeros. */
  function ImageOf(content: seq<byte>, s: Section): (r: seq<byte>)
    requires Readable(s, |content|)
    ensures |r| == Extent(s)
  {
    (if s.rawSize == 0 then [] else content[s.rawPointer..s.rawPointer + s.rawSize])
    + Zeros(if s.size < s.rawSize then 0 else s.size - s.rawSize)
  }

  /** The raw data of section k beyond what was allocated for it. */
  function Overhang(rs: seq<Region>, ss: seq<Section>, k: nat): Region
    requires k < |ss|
  {
    Region(Range(rs, ss, k).End(),
           if ss[k].rawSize < Rounded(ss[k].size) then 0 else ss[k].rawSize - Rounded(ss[k].size))
  }

  /** Section k writes byte x. */
  predicate Writes(rs: seq<Region>, ss: seq<Section>, k: nat, x: int)
    requires k < |ss|
  {
    Spot(rs, ss, k) <= x < Spot(rs, ss, k) + Extent(ss[k])
  }

  /** What hangs over was free when loading began. */
  ghost predicate OverhangsFree(rs: seq<Region>, ss: seq<Section>, n: nat)
    requires n <= |ss|
  {
    forall k {:trigger ss[k]} :: 0 <= k < n && Spot(rs, ss, k) != 0 ==>
          Free(rs, Overhang(rs, ss, k).addr, Overhang(rs, ss, k).size)
  }

  predicate AllReadable(ss: seq<Section>, n: nat, length: nat)
    requires n <= |ss|
  {
    forall k :: 0 <= k < n ==> Readable(ss[k], length)
  }

  /** What each of the first n sections writes. */
  predicate Filled(ss: seq<Section>, datas: seq<seq<byte>>, n: nat)
    requires n <= |ss|
  {
    n <= |datas| && forall k :: 0 <= k < n ==> |datas[k]| == Extent(ss[k])
  }

  /** The sections' images. */
  function Images(content: seq<byte>, ss: seq<Section>): (r: seq<seq<byte>>)
    requires AllReadable(ss, |ss|, |content|)
    ensures Filled(ss, r, |ss|)
  {
    seq(|ss|, k requires 0 <= k < |ss| => ImageOf(content, ss[k]))
  }

  /** Memory after the first n sections have written these bytes. */
  ghost function Written(b: seq<byte>, rs: seq<Region>, ss: seq<Section>, datas: seq<seq<byte>>, n: nat): (r: seq<byte>)
    requires n <= |ss| && Disjoint(rs) && Above1MB(rs) && Addressable(rs, LAST_BYTE) && Found(rs, ss, n)
    requires Filled(ss, datas, n) && |b| == ADDRESS_SPACE
    ensures |r| == ADDRESS_SPACE
  {
    if n == 0 then b else
    RangeWasFree(rs, ss, n - 1);
    Spliced(Written(b, rs, ss, datas, n - 1), Spot(rs, ss, n - 1), datas[n - 1])
  }

  /** A byte that some section writes does not depend on what memory held. */
  lemma {:induction false} WrittenByte(b: seq<byte>, b': seq<byte>, rs: seq<Region>, ss: seq<Section>,
                                       datas: seq<seq<byte>>, n: nat, x: nat)
    requires n <= |ss| && Disjoint(rs) && Above1MB(rs) && Addressable(rs, LAST_BYTE) && Found(rs, ss, n)
    requires Filled(ss, datas, n) && |b| == |b'| == ADDRESS_SPACE && x < ADDRESS_SPACE
    ensures (exists k :: 0 <= k < n && Writes(rs, ss, k, x)) ==>
              Written(b, rs, ss, datas, n)[x] == Written(b', rs, ss, datas, n)[x]
    ensures !(exists k :: 0 <= k < n && Writes(rs, ss, k, x)) ==> Written(b, rs, ss, datas, n)[x] == b[x]
  {
    hide Disjoint, Above1MB, Addressable, Spot, Covered, Writes, Spliced;
    if n > 0 {
      WrittenByte(b, b', rs, ss, datas, n - 1, x);
      RangeWasFree(rs, ss, n - 1);
      var k, d := n - 1, datas[n - 1];
      LastWriter(Written(b, rs, ss, datas, k), rs, ss, k, d, x);
      LastWriter(Written(b', rs, ss, datas, k), rs, ss, k, d, x);
      if j :| 0 <= j < k && Writes(rs, ss, j, x) {
        assert 0 <= j < n;
      }
    }
  }

  /** A byte is the section's if that writes it, and stays otherwise. */
  lemma LastWriter(m: seq<byte>, rs: seq<Region>, ss: seq<Section>, k: nat, d: seq<byte>, x: nat)
    requires k < |ss| && |d| == Extent(ss[k]) && Spot(rs, ss, k) + |d| <= |m| && x < |m|
    ensures Spliced(m, Spot(rs, ss, k), d)[x] == if Writes(rs, ss, k, x) then d[x - Spot(rs, ss, k)] else m[x]
  {
    hide Spot;
  }

  /** What a section writes was free exactly when its overhang was. */
  lemma WritesAreFreeIff(rs: seq<Region>, ss: seq<Section>, k: nat)
    requires k < |ss| && Disjoint(rs) && Above1MB(rs) && Found(rs, ss, k) && Spot(rs, ss, k) != 0
    ensures Free(rs, Overhang(rs, ss, k).addr, Overhang(rs, ss, k).size) <==> Free(rs, Spot(rs, ss, k), Extent(ss[k]))
  {
    hide Disjoint, Above1MB, Addressable, Spot, Covered;
    RangeWasFree(rs, ss, k);
    var a, o := Spot(rs, ss, k), Overhang(rs, ss, k);
    assert o.size > 0 ==> o.addr + o.size == a + Extent(ss[k]);
    forall x | a <= x < a + Extent(ss[k]) && x < o.addr ensures Covered(rs, x) {
      assert In(Range(rs, ss, k), x);
    }
  }

  /**
   Whatever memory held before: loading n sections changes free bytes only, if and only if all
   that hangs over was free.
   */
  lemma OnlyFreeChangesIff(rs: seq<Region>, ss: seq<Section>, datas: seq<seq<byte>>, n: nat)
    requires n <= |ss| && Disjoint(rs) && Above1MB(rs) && Addressable(rs, LAST_BYTE) && Found(rs, ss, n)
    requires Filled(ss, datas, n)
    ensures (forall b | |b| == ADDRESS_SPACE :: OnlyFreeChanged(rs, b, Written(b, rs, ss, datas, n))) <==>
              OverhangsFree(rs, ss, n)
  {
    hide Disjoint, Above1MB, Addressable, Spot, Covered, Written, Overhang, Free, OnlyFreeChanged, Filled;
    if OverhangsFree(rs, ss, n) {
      forall b: seq<byte> | |b| == ADDRESS_SPACE ensures OnlyFreeChanged(rs, b, Written(b, rs, ss, datas, n)) {
        FreeOverhangsChangeFree(b, rs, ss, datas, n);
      }
    } else {
      var k :| 0 <= k < n && Spot(rs, ss, k) != 0 && !Free(rs, Overhang(rs, ss, k).addr, Overhang(rs, ss, k).size);
      WritesAreFreeIff(rs, ss, k);
      var b := SomeoneElsesByte(rs, ss, datas, n, k);
    }
  }

  lemma FreeOverhangsChangeFree(b: seq<byte>, rs: seq<Region>, ss: seq<Section>, datas: seq<seq<byte>>, n: nat)
    requires n <= |ss| && Disjoint(rs) && Above1MB(rs) && Addressable(rs, LAST_BYTE) && Found(rs, ss, n)
    requires Filled(ss, datas, n)
    requires |b| == ADDRESS_SPACE && OverhangsFree(rs, ss, n)
    ensures OnlyFreeChanged(rs, b, Written(b, rs, ss, datas, n))
  {
    hide Disjoint, Above1MB, Addressable, Spot, Covered, Written, Overhang, Filled;
    var b' := Written(b, rs, ss, datas, n);
    forall x {:trigger b'[x]} | 0 <= x < |b| && !Covered(rs, x) ensures b'[x] == b[x] {
      WrittenByte(b, b, rs, ss, datas, n, x);
      if k :| 0 <= k < n && Writes(rs, ss, k, x) {
        WritesAreFreeIff(rs, ss, k);
        assert Free(rs, Overhang(rs, ss, k).addr, Overhang(rs, ss, k).size);
      }
    }
  }

  /** Memory in which loading changes a byte that was not free. */
  lemma SomeoneElsesByte(rs: seq<Region>, ss: seq<Section>, datas: seq<seq<byte>>, n: nat, k: nat)
    returns (b: seq<byte>)
    requires k < n <= |ss| && Disjoint(rs) && Above1MB(rs) && Addressable(rs, LAST_BYTE) && Found(rs, ss, n)
    requires Filled(ss, datas, n)
    requires !Free(rs, Spot(rs, ss, k), Extent(ss[k]))
    ensures |b| == ADDRESS_SPACE && !OnlyFreeChanged(rs, b, Written(b, rs, ss, datas, n))
  {
    hide Disjoint, Above1MB, Addressable, Spot, Covered, Written, Filled;
    RangeWasFree(rs, ss, k);
    var x: nat :| Spot(rs, ss, k) <= x < Spot(rs, ss, k) + Extent(ss[k]) && !Covered(rs, x);
    assert Writes(rs, ss, k, x);
    var zeros := Zeros(ADDRESS_SPACE);
    var v := Written(zeros, rs, ss, datas, n)[x];
    b := zeros[x := if v == 0 then 1 else 0];
    WrittenByte(b, zeros, rs, ss, datas, n, x);
  }

  /** No later section's overhang reaches section j. */
  predicate LeftAlone(rs: seq<Region>, ss: seq<Section>, j: nat, n: nat)
    requires j < n <= |ss|
  {
    forall k :: j < k < n ==> !Overlap(Overhang(rs, ss, k), Region(Spot(rs, ss, j), ss[j].size))
  }

  /** When all sections are loaded, section j is in its place, unless a later one has written over it. */
  lemma {:induction false} SectionIsInPlace(b: seq<byte>, rs: seq<Region>, ss: seq<Section>, datas: seq<seq<byte>>,
                                            j: nat,
                                            n: nat)
    requires j < n <= |ss| && Disjoint(rs) && Above1MB(rs) && Addressable(rs, LAST_BYTE) && Found(rs, ss, n)
    requires Filled(ss, datas, n) && |b| == ADDRESS_SPACE && LeftAlone(rs, ss, j, n)
    ensures Spot(rs, ss, j) + ss[j].size <= ADDRESS_SPACE
    ensures Written(b, rs, ss, datas, n)[Spot(rs, ss, j)..Spot(rs, ss, j) + ss[j].size]
              == datas[j][..ss[j].size]
    ensures forall x :: In(Region(Spot(rs, ss, j), ss[j].size), x) ==> !Covered(Rest(rs, ss, n), x)
    decreases n
  {
    hide Disjoint, Above1MB, Addressable, Spot, Covered, Rest, Readable;
    RestMeets(rs, ss, n);
    RangeWasFree(rs, ss, j);
    var a, m := Spot(rs, ss, j), ss[j].size;
    forall x | In(Region(a, m), x) ensures !Covered(Rest(rs, ss, n), x) {
      assert In(Range(rs, ss, j), x);
    }
    RangeWasFree(rs, ss, n - 1);
    var b', d := Written(b, rs, ss, datas, n - 1), datas[n - 1];
    if n - 1 == j {
      assert Spliced(b', a, d)[a..a + m] == d[..m];
    } else {
      SectionIsInPlace(b, rs, ss, datas, j, n - 1);
      OthersKeepOff(rs, ss, j, n - 1);
      SplicedOutside(b', Spot(rs, ss, n - 1), d, Extent(ss[n - 1]));
      RangeStays(b', Spliced(b', Spot(rs, ss, n - 1), d), Spot(rs, ss, n - 1), Extent(ss[n - 1]), a, m);
    }
  }

  lemma OthersKeepOff(rs: seq<Region>, ss: seq<Section>, j: nat, k: nat)
    requires j < k < |ss| && Disjoint(rs) && Above1MB(rs) && Found(rs, ss, k) && Spot(rs, ss, k) != 0
    requires !Overlap(Overhang(rs, ss, k), Region(Spot(rs, ss, j), ss[j].size))
    ensures Spot(rs, ss, j) + ss[j].size <= Spot(rs, ss, k) || Spot(rs, ss, k) + Extent(ss[k]) <= Spot(rs, ss, j)
  {
    hide Disjoint, Above1MB, Addressable, Spot, Covered;
    RangeWasFree(rs, ss, j);
    RangeWasFree(rs, ss, k);
    RangesApart(rs, ss, j, k);
    var (r, q) := (Range(rs, ss, j), Range(rs, ss, k));
    assert !In(r, q.addr) && !In(q, r.addr);
  }

  /** Two sections in a region that they fill; the second one's raw data is longer than it is. */
  function TwoSections(): seq<Section> {
    [Section(0x10_1000, 0x1000, 0x1000, 0, false), Section(0x10_0000, 0x1000, 0x2200, 0x1000, false)]
  }

  function TwoPages(): seq<Region> { [Region(0x10_0000, 0x2000)] }

  lemma TwoSpots()
    ensures var (rs, ss) := (TwoPages(), TwoSections());
      && Disjoint(rs) && Above1MB(rs) && Addressable(rs, LAST_BYTE) && Found(rs, ss, 2) && AllReadable(ss, 2, 0x3200)
      && Spot(rs, ss, 0) == 0x10_1000 && Spot(rs, ss, 1) == 0x10_0000
  {
    var rs, ss := TwoPages(), TwoSections();
    assert Rest(rs, ss, 0) == rs && Spot(rs, ss, 0) == 0x10_1000;
    assert Rest(rs, ss, 1) == [Region(0x10_0000, 0x1000)] && Spot(rs, ss, 1) == 0x10_0000;
  }

  /**
   Raw data is stored in multiples of the file alignment, so it may be longer than the section:
   here the second section's overwrites the first, and memory behind the free region.
   */
  lemma LongRawDataOverwrites(b: seq<byte>, content: seq<byte>)
    requires |b| == ADDRESS_SPACE && content == seq(0x1000, _ => 1) + seq(0x2200, _ => 2)
    ensures var (rs, ss) := (TwoPages(), TwoSections());
      && Disjoint(rs) && Above1MB(rs) && Addressable(rs, LAST_BYTE) && Found(rs, ss, 2) && AllReadable(ss, 2, |content|)
      && !LeftAlone(rs, ss, 0, 2) && !OverhangsFree(rs, ss, 2)
      && var datas := Images(content, ss);
        && datas[0][0] == 1 && Written(b, rs, ss, datas, 2)[0x10_1000] == 2
        && !Covered(rs, 0x10_2000) && Written(b, rs, ss, datas, 2)[0x10_2000] == 2
  {
    hide Spot, Rest, Found, Disjoint, Above1MB, Addressable, Zeros, Written, Covered, OverhangsFree;
    TwoSpots();
    var rs, ss := TwoPages(), TwoSections();
    var datas := Images(content, ss);
    assert Overlap(Overhang(rs, ss, 1), Region(Spot(rs, ss, 0), ss[0].size));
    BehindTwoPages();
    LastWritten(b, rs, ss, datas, 1, 0x1000);
    LastWritten(b, rs, ss, datas, 1, 0x2000);
    assert datas[1][0x1000] == content[0x1000..0x3200][0x1000] && datas[1][0x2000] == content[0x1000..0x3200][0x2000];
  }

  lemma BehindTwoPages()
    requires Spot(TwoPages(), TwoSections(), 1) == 0x10_0000
    ensures !Covered(TwoPages(), 0x10_2000) && !OverhangsFree(TwoPages(), TwoSections(), 2)
  {
    hide Spot, Rest;
    var ss := TwoSections();
    assert ss[1].rawSize == 0x2200;
    assert Overhang(TwoPages(), ss, 1) == Region(0x10_1000, 0x1200);
  }

  /** What the section that was loaded last has written is in memory. */
  lemma LastWritten(b: seq<byte>, rs: seq<Region>, ss: seq<Section>, datas: seq<seq<byte>>, n: nat, x: nat)
    requires n < |ss| && Disjoint(rs) && Above1MB(rs) && Addressable(rs, LAST_BYTE) && Found(rs, ss, n + 1)
    requires Filled(ss, datas, n + 1) && |b| == ADDRESS_SPACE && x < Extent(ss[n])
    ensures Spot(rs, ss, n) + x < ADDRESS_SPACE
    ensures Written(b, rs, ss, datas, n + 1)[Spot(rs, ss, n) + x] == datas[n][x]
  {
    hide Spot, Disjoint, Above1MB, Addressable, Zeros;
    RangeWasFree(rs, ss, n);
  }

  // ---------------------------------------------------------------- loading

  /** An undisturbed read delivers the section's raw data. */
  ghost predicate Delivered(file: ImageFile, s: Section)
    requires file.Sound()
  {
    s.rawSize == 0 || (s.rawPointer < file.Size() && file.Whole(s.rawPointer, s.rawSize))
  }

  // ---------------------------------------------------------------- what the headers say

  /** Where a section is to go, and how long it is: PE addresses are relative, and plain COFF has no virtual sizes. */
  function PlaceOf(h: Section, isPE: bool, imageBase: u32): nat {
    if isPE then (h.address + imageBase) % 0x1_0000_0000 else h.address
  }

  function LengthOf(h: Section, isPE: bool): nat { if isPE then h.size else h.rawSize }

  /**
   A section is in memory as its header was read.  The addresses of PE sections are relative to
   ImageBase, on 32 bits, and they have VirtualSize bytes: their raw data, and zeros behind it.  Plain
   COFF sections have SizeOfRawData bytes: the file's, or for a bss section zeros.  An address of 0 stands
   for any place.
   */
  ghost predicate AsRead(rs': seq<Region>, b: seq<byte>, content: seq<byte>, h: Section, isPE: bool, imageBase: u32,
                         a: nat) {
    var address, size := PlaceOf(h, isPE, imageBase), LengthOf(h, isPE);
    && a != 0 && (address != 0 ==> a == address) && a + size <= |b|
    && (forall x :: a <= x < a + size ==> !Covered(rs', x))
    && forall x {:trigger b[x]} :: a <= x < a + size ==>
         if x - a < h.rawSize && (isPE || !h.bss) then
           h.rawPointer + (x - a) < |content| && b[x] == content[h.rawPointer + (x - a)]
         else b[x] == 0
  }

  /** There is room for a section as its header was read, and an undisturbed read delivers what raw data it has. */
  ghost predicate Loadable(rest: seq<Region>, file: ImageFile, h: Section, isPE: bool, imageBase: u32)
    requires file.Sound()
  {
    && Alloc(rest, PlaceOf(h, isPE, imageBase), LengthOf(h, isPE), 0, true).1 != 0
    && (h.rawSize == 0 || (!isPE && h.bss) || (h.rawPointer < file.Size() && file.Whole(h.rawPointer, h.rawSize)))
  }

  lemma LoadableIs(rs: seq<Region>, hs: seq<Section>, isPE: bool, imageBase: u32, k: nat, file: ImageFile)
    requires file.Sound() && k < |hs|
    ensures var ss := AllAdjusted(hs, isPE, imageBase);
      Loadable(Rest(rs, ss, k), file, hs[k], isPE, imageBase) <==> Spot(rs, ss, k) != 0 && Delivered(file, ss[k])
  {
    hide Alloc, Rest, ImageFile.Sound, ImageFile.Whole, ImageFile.Size;
    file.SoundIsWired();
  }

  /** When all sections are loaded, one that has written its image and that no later one has written over is as read. */
  lemma SectionIsAsRead(b: seq<byte>, rs: seq<Region>, hs: seq<Section>, isPE: bool, imageBase: u32,
                        datas: seq<seq<byte>>, content: seq<byte>, j: nat)
    requires var ss := AllAdjusted(hs, isPE, imageBase); var n := |ss|;
      && j < n && Disjoint(rs) && Above1MB(rs) && Addressable(rs, LAST_BYTE) && Found(rs, ss, n)
      && Filled(ss, datas, n) && |b| == ADDRESS_SPACE && LeftAlone(rs, ss, j, n)
      && Readable(ss[j], |content|) && datas[j] == ImageOf(content, ss[j])
    ensures var ss := AllAdjusted(hs, isPE, imageBase);
      AsRead(Rest(rs, ss, |ss|), Written(b, rs, ss, datas, |ss|), content, hs[j], isPE, imageBase, Spot(rs, ss, j))
  {
    hide Disjoint, Above1MB, Addressable, Spot, Covered, Rest, Written, Filled, LeftAlone, Found, ImageOf, AsRead,
      Adjusted;
    var ss := AllAdjusted(hs, isPE, imageBase);
    SectionIsInPlace(b, rs, ss, datas, j, |ss|);
    FoundEach(rs, ss, |ss|, j);
    RangeWasFree(rs, ss, j);
    var a, m := Spot(rs, ss, j), Written(b, rs, ss, datas, |ss|);
    forall x | a <= x < a + ss[j].size ensures HoldsByte(m, a, content, ss[j], x) {
      assert m[a..a + ss[j].size][x - a] == m[x];
      ImageByte(content, ss[j], x - a);
    }
    NotFree(Rest(rs, ss, |ss|), a, ss[j].size);
    AdjustedIsAsRead(Rest(rs, ss, |ss|), m, content, hs[j], isPE, imageBase, a);
  }

  /** Byte x of memory is that of the image of the section at a. */
  ghost predicate HoldsByte(b: seq<byte>, a: nat, content: seq<byte>, s: Section, x: nat)
    requires a <= x < |b|
  {
    if x - a < s.rawSize then s.rawPointer + (x - a) < |content| && b[x] == content[s.rawPointer + (x - a)]
    else b[x] == 0
  }

  lemma AdjustedIsAsRead(rs': seq<Region>, b: seq<byte>, content: seq<byte>, h: Section, isPE: bool, imageBase: u32,
                         a: nat)
    requires var s := Adjusted(h, isPE, imageBase);
      && a != 0 && (s.address != 0 ==> a == s.address) && a + s.size <= |b|
      && (forall x :: a <= x < a + s.size ==> !Covered(rs', x))
      && forall x :: a <= x < a + s.size ==> HoldsByte(b, a, content, s, x)
    ensures AsRead(rs', b, content, h, isPE, imageBase, a)
  {
    hide Covered, HoldsByte, Adjusted, PlaceOf, LengthOf;
    AdjustedFields(h, isPE, imageBase);
    var s := Adjusted(h, isPE, imageBase);
    forall x | a <= x < a + s.size
      ensures if x - a < h.rawSize && (isPE || !h.bss) then
                h.rawPointer + (x - a) < |content| && b[x] == content[h.rawPointer + (x - a)]
              else b[x] == 0
    {
      ByteAsRead(b, a, content, h, isPE, imageBase, x);
    }
  }

  lemma AdjustedFields(h: Section, isPE: bool, imageBase: u32)
    ensures var s := Adjusted(h, isPE, imageBase);
      s.address == PlaceOf(h, isPE, imageBase) && s.size == LengthOf(h, isPE)
  {
  }

  lemma ByteAsRead(b: seq<byte>, a: nat, content: seq<byte>, h: Section, isPE: bool, imageBase: u32, x: nat)
    requires var s := Adjusted(h, isPE, imageBase);
      a <= x < a + s.size && a + s.size <= |b| && HoldsByte(b, a, content, s, x)
    ensures if x - a < h.rawSize && (isPE || !h.bss) then
              h.rawPointer + (x - a) < |content| && b[x] == content[h.rawPointer + (x - a)]
            else b[x] == 0
  {
  }

  lemma FoundEach(rs: seq<Region>, ss: seq<Section>, n: nat, j: nat)
    requires j < n <= |ss| && Found(rs, ss, n)
    ensures Found(rs, ss, j) && Spot(rs, ss, j) != 0
  {
    hide Spot;
  }

  lemma ImageByte(content: seq<byte>, s: Section, i: nat)
    requires Readable(s, |content|) && i < s.size
    ensures if i < s.rawSize then s.rawPointer + i < |content| && ImageOf(content, s)[i] == content[s.rawPointer + i]
            else ImageOf(content, s)[i] == 0
  {
  }

  /** The loop stops at section `fail`, which cannot be loaded, while those before it can; or at none. */
  ghost predicate FirstFailure(rs: seq<Region>, file: ImageFile, hs: seq<Section>, isPE: bool, imageBase: u32,
                               fail: nat)
    requires file.Sound()
  {
    var ss := AllAdjusted(hs, isPE, imageBase);
    && fail <= |hs|
    && (forall k {:trigger hs[k]} :: 0 <= k < fail ==> Loadable(Rest(rs, ss, k), file, hs[k], isPE, imageBase))
    && (fail < |hs| ==> !Loadable(Rest(rs, ss, fail), file, hs[fail], isPE, imageBase))
  }

  lemma StopIsFirstFailure(rs: seq<Region>, file: ImageFile, hs: seq<Section>, isPE: bool, imageBase: u32, fail: nat,
                           ok: bool)
    requires file.Sound() && (ok <==> fail == |hs|) && fail <= |hs|
    ensures var ss := AllAdjusted(hs, isPE, imageBase);
      AsDelivered(rs, ss, fail, ok, file) && Found(rs, ss, fail) ==> FirstFailure(rs, file, hs, isPE, imageBase, fail)
  {
    hide Loadable, Rest, Spot, Delivered, Adjusted, ImageFile.Sound;
    forall k | 0 <= k < |hs| {
      LoadableIs(rs, hs, isPE, imageBase, k, file);
    }
  }

  lemma NotFree(rs: seq<Region>, a: nat, n: nat)
    requires forall x :: In(Region(a, n), x) ==> !Covered(rs, x)
    ensures forall x :: a <= x < a + n ==> !Covered(rs, x)
  {
    hide Covered;
    forall x | a <= x < a + n ensures !Covered(rs, x) {
      assert In(Region(a, n), x);
    }
  }

  /** What came of one section. */
  ghost predicate Tried(rs: seq<Region>, b: seq<byte>, rs': seq<Region>, b': seq<byte>, s: Section, ok: bool,
                        length: nat) {
    var (t, a) := Alloc(rs, s.address, s.size, 0, true);
    && (ok ==> a != 0 && Readable(s, length) && a + Extent(s) <= |b|)
    && rs' == (if ok || a == 0 then t else Add(t, a, s.size, true).0)
    && if a == 0 then b' == b else SameOutside(b, b', a, Extent(s))
  }

  /** Where the loop stands after n sections: it goes on, or the n-th has failed. */
  ghost predicate Progress(rs: seq<Region>, b: seq<byte>, rs': seq<Region>, b': seq<byte>, ss: seq<Section>, n: nat,
                           ok: bool, file: ImageFile)
    requires file.Sound()
  {
    && n <= |ss| && (!ok ==> n < |ss|) && Disjoint(rs) && Above1MB(rs) && Addressable(rs, LAST_BYTE)
    && |b| == |b'| == ADDRESS_SPACE
    && Found(rs, ss, n) && AllReadable(ss, n, file.Size())
    && rs' == (if ok then Rest(rs, ss, n) else Stopped(rs, ss, n))
    && (OverhangsFree(rs, ss, if ok then n else n + 1) ==> OnlyFreeChanged(rs, b, b'))
  }

  /** When a section's transfer began, when its seek was done, and when the transfer ended. */
  datatype Times = Times(begun: nat, sought: nat, ended: nat)

  /** One after the other. */
  predicate Chained(times: seq<Times>, start: nat, end: nat) {
    if times == [] then start == end else
    var t := times[|times| - 1];
    t.begun <= t.sought <= t.ended == end && Chained(times[..|times| - 1], start, t.begun)
  }

  /** The file's cursor after the first n sections, which have been read whole. */
  function CursorAfter(ss: seq<Section>, p: nat, n: nat): nat
    requires n <= |ss|
  {
    if n == 0 then p
    else if ss[n - 1].rawSize == 0 then CursorAfter(ss, p, n - 1)
    else ss[n - 1].rawPointer + ss[n - 1].rawSize
  }

  /** The last section's seek has ended on the file's chain. */
  ghost predicate Landed(file: ImageFile, ss: seq<Section>, times: seq<Times>, p: nat, onTrack: bool)
    requires file.Wired() && 0 < |times| <= |ss|
    decreases |times|, 0
  {
    var k := |times| - 1;
    file.Lands(CursorAfter(ss, p, k), TrackedAfter(file, ss, times[..k], p, onTrack), ss[k].rawPointer,
               times[k].begun, times[k].sought)
  }

  /** A section that has no raw data, or whose seek has landed, is as read, unless a later one has written over it. */
  ghost predicate AllAsRead(rs: seq<Region>, rs': seq<Region>, b: seq<byte>, file: ImageFile, hs: seq<Section>,
                            isPE: bool,
                            imageBase: u32, times: seq<Times>, p: nat, onTrack: bool)
    requires file.Sound()
  {
    var ss := AllAdjusted(hs, isPE, imageBase);
    && |times| == |hs|
    && forall k {:trigger hs[k]} :: 0 <= k < |hs| && LeftAlone(rs, ss, k, |ss|)
                                    && (ss[k].rawSize == 0 || Landed(file, ss, times[..k + 1], p, onTrack)) ==>
         AsRead(rs', b, file.Content(), hs[k], isPE, imageBase, Spot(rs, ss, k))
  }

  lemma RecordedIsAsRead(rs: seq<Region>, b: seq<byte>, b': seq<byte>, file: ImageFile, hs: seq<Section>, isPE: bool,
                         imageBase: u32, times: seq<Times>, datas: seq<seq<byte>>, p: nat, onTrack: bool)
    requires var ss := AllAdjusted(hs, isPE, imageBase);
      && file.Sound() && |times| == |datas| == |hs|
      && Recorded(rs, b, b', ss, datas) && ImagesWhereLanded(file, ss, times, datas, p, onTrack)
    ensures var ss := AllAdjusted(hs, isPE, imageBase);
      AllAsRead(rs, Rest(rs, ss, |ss|), b', file, hs, isPE, imageBase, times, p, onTrack)
  {
    hide Adjusted, Disjoint, Above1MB, Addressable, Spot, Rest, Written, Filled, LeftAlone, Found, ImageOf, AsRead,
      Landed, Readable, ImageFile.Sound, ImageFile.Content;
    file.SoundIsWired();
    var ss := AllAdjusted(hs, isPE, imageBase);
    forall k {:trigger hs[k]} | 0 <= k < |hs| && LeftAlone(rs, ss, k, |ss|)
                                && (ss[k].rawSize == 0 || Landed(file, ss, times[..k + 1], p, onTrack))
      ensures AsRead(Rest(rs, ss, |ss|), b', file.Content(), hs[k], isPE, imageBase, Spot(rs, ss, k))
    {
      assert datas[k] == ImageOf(file.Content(), ss[k]);
      SectionIsAsRead(b, rs, hs, isPE, imageBase, datas, file.Content(), k);
    }
  }

  /** The file's cursor is known to be on its chain: the last seek has landed, and nothing has failed since. */
  ghost predicate TrackedAfter(file: ImageFile, ss: seq<Section>, times: seq<Times>, p: nat, onTrack: bool)
    requires file.Wired() && |times| <= |ss|
    decreases |times|, 1
  {
    if times == [] then onTrack else
    var k := |times| - 1;
    if ss[k].rawSize == 0 then TrackedAfter(file, ss, times[..k], p, onTrack)
    else Landed(file, ss, times, p, onTrack) && file.device.env.Smooth(times[k].sought, times[k].ended)
  }

  /** Each section whose seek has landed has written its image. */
  ghost predicate ImagesWhereLanded(file: ImageFile, ss: seq<Section>, times: seq<Times>, datas: seq<seq<byte>>,
                                    p: nat, onTrack: bool)
    requires file.Sound()
  {
    && |times| == |datas| <= |ss| && AllReadable(ss, |datas|, |file.Content()|)
    && forall k {:trigger datas[k]} :: 0 <= k < |datas| ==>
         (ss[k].rawSize == 0 || Landed(file, ss, times[..k + 1], p, onTrack)) ==>
               datas[k] == ImageOf(file.Content(), ss[k])
  }

  /** If nothing fails, and rewinding finds the file, every seek lands. */
  lemma {:induction false} UndisturbedSeeksLand(file: ImageFile, ss: seq<Section>, times: seq<Times>, p: nat,
                                                start: nat, end: nat)
    requires file.Wired() && |times| <= |ss| && Chained(times, start, end) && start <= end
    requires file.Straight() && file.device.env.Smooth(start, end)
    ensures TrackedAfter(file, ss, times, p, true)
    ensures times != [] ==> Landed(file, ss, times, p, true)
    decreases |times|
  {
    hide ImageFile.Wired, ImageFile.Straight, ImageFile.FoundFrom, ImageFile.KeptFrom;
    if times != [] {
      var k := |times| - 1;
      var t := times[k];
      ChainedGrows(times[..k], start, t.begun);
      UndisturbedSeeksLand(file, ss, times[..k], p, start, t.begun);
      StraightFinds(file, CursorAfter(ss, p, k), ss[k].rawPointer);
    }
  }

  lemma {:induction false} ChainedGrows(times: seq<Times>, start: nat, end: nat)
    requires Chained(times, start, end)
    ensures start <= end
    decreases |times|
  {
    if times != [] {
      ChainedGrows(times[..|times| - 1], start, times[|times| - 1].begun);
    }
  }

  lemma StraightFinds(file: ImageFile, p: nat, t: nat)
    requires file.Wired() && file.Straight()
    ensures file.FoundFrom(p, true, t)
  {
  }

  /** The section's bytes are its image: it has no raw data, or its seek lands. */
  ghost predicate Certain(file: ImageFile, s: Section, p: nat, onTrack: bool, begun: nat, sought: nat)
    requires file.Wired()
  {
    s.rawSize == 0 || file.Lands(p, onTrack, s.rawPointer, begun, sought)
  }

  /** The file's cursor after a section, and whether it is on its chain. */
  ghost predicate After(file: ImageFile, s: Section, p: nat, onTrack: bool, begun: nat, sought: nat, ended: nat,
                        q: nat, onTrack': bool)
    requires file.Wired()
  {
    if s.rawSize == 0 then q == p && onTrack' == onTrack
    else
      && q == s.rawPointer + s.rawSize
      && (file.Lands(p, onTrack, s.rawPointer, begun, sought) && file.device.env.Smooth(sought, ended) ==> onTrack')
  }

  /** Memory holds what the first n sections have written. */
  ghost predicate Recorded(rs: seq<Region>, b: seq<byte>, b': seq<byte>, ss: seq<Section>, datas: seq<seq<byte>>) {
    && |datas| <= |ss| && Disjoint(rs) && Above1MB(rs) && Addressable(rs, LAST_BYTE) && Found(rs, ss, |datas|)
    && Filled(ss, datas, |datas|) && |b| == ADDRESS_SPACE
    && b' == Written(b, rs, ss, datas, |datas|)
  }

  /** Where the file is after these sections. */
  ghost predicate Followed(file: ImageFile, ss: seq<Section>, times: seq<Times>, datas: seq<seq<byte>>, p: nat,
                           onTrack: bool, start: nat, now: nat, q: nat, onTrack': bool)
    requires file.Sound()
  {
    && Chained(times, start, now) && ImagesWhereLanded(file, ss, times, datas, p, onTrack)
    && q == CursorAfter(ss, p, |times|) && (TrackedAfter(file, ss, times, p, onTrack) ==> onTrack')
  }

  /** The first n headers have been adjusted. */
  predicate UpTo(cur: seq<Section>, s0: seq<Section>, ss: seq<Section>, n: nat) {
    |cur| == |s0| == |ss| && forall k :: 0 <= k < |cur| ==> cur[k] == if k < n then ss[k] else s0[k]
  }

  /** The first n sections are delivered; the next has no room or is not, if it has failed. */
  ghost predicate AsDelivered(rs: seq<Region>, ss: seq<Section>, n: nat, ok: bool, file: ImageFile)
    requires file.Sound()
  {
    && n <= |ss| && (forall k :: 0 <= k < n ==> Delivered(file, ss[k]))
    && (!ok ==> n < |ss| && (Spot(rs, ss, n) == 0 || !Delivered(file, ss[n])))
  }

  class CoffLoader {
    const phys: PhysMemory
    const ram: array<byte>

    constructor (phys: PhysMemory, ram: array<byte>)
      ensures this.phys == phys && this.ram == ram
    {
      this.phys, this.ram := phys, ram;
    }

    ghost predicate Valid()
      reads phys
    {
      && Disjoint(phys.regions) && Above1MB(phys.regions) && Addressable(phys.regions, LAST_BYTE)
      && ram.Length == ADDRESS_SPACE
    }

    /** Valid, to be called where its body is hidden. */
    lemma WhenValid()
      ensures Valid() <==> Disjoint(phys.regions) && Above1MB(phys.regions) && Addressable(phys.regions, LAST_BYTE)
                           && ram.Length == ADDRESS_SPACE
    {
    }

    lemma Apart(file: ImageFile, sections: array<Section>)
      ensures sections !in file.Parts()
    {
    }

    lemma AllocIsLow(rs: seq<Region>, s: Section)
      requires Disjoint(rs) && Above1MB(rs) && Addressable(rs, LAST_BYTE)
      ensures var (rs', a) := Alloc(rs, s.address, s.size, 0, true);
        a + Rounded(s.size) <= LAST_BYTE || (rs', a) == (rs, 0)
    {
      AllocIsFree(rs, s.address, s.size, 0, LAST_BYTE);
    }

    lemma NothingAdded(b: seq<byte>, at: nat)
      requires at <= |b|
      ensures Spliced(b, at, []) == b
    {
    }

    /** What has been read, and zeros if the section is longer, make up its image. */
    lemma Completed(b0: seq<byte>, b1: seq<byte>, b: seq<byte>, a: nat, s: Section, file: ImageFile)
      requires file.Sound() && Readable(s, file.Size()) && a + Extent(s) <= |b0| == |b1|
      requires SameOutside(b0, b1, a, Extent(s)) && (s.rawSize == 0 ==> b1 == b0)
      requires b == if s.rawSize < s.size then Spliced(b1, a + s.rawSize, Zeros(s.size - s.rawSize)) else b1
      ensures SameOutside(b0, b, a, Extent(s))
      ensures s.rawSize == 0 || b1 == Spliced(b0, a, file.Content()[s.rawPointer..s.rawPointer + s.rawSize]) ==>
                b == Spliced(b0, a, ImageOf(file.Content(), s))
    {
      hide Zeros, ImageFile.Sound, ImageFile.Content, Spliced, SameOutside;
      var raw := if s.rawSize == 0 then [] else file.Content()[s.rawPointer..s.rawPointer + s.rawSize];
      NothingAdded(b0, a);
      if s.rawSize < s.size {
        var z := Zeros(s.size - s.rawSize);
        SplicedOutside(b1, a + s.rawSize, z, |z|);
        OutsideJoins(b0, b1, b, a, Extent(s), a + s.rawSize, |z|);
        SplicedTwice(b0, a, raw, z);
      } else {
        assert raw + Zeros(0) == raw;
      }
    }

    /** The raw data is looked for and read to `addr`, and the rest of the section cleared. */
    method Transfer(file: ImageFile, s: Section, addr: nat) returns (ok: bool, ghost sought: nat)
      requires file.Valid() && addr + Extent(s) <= ram.Length
      modifies ram, file.Parts()
      ensures file.Valid() && old(file.device.env.asked) <= sought <= file.device.env.asked
      ensures SameOutside(old(ram[..]), ram[..], addr, Extent(s)) && (ok ==> Readable(s, file.Size()))
      ensures ok ==> After(file, s, old(file.Cursor()), old(file.OnTrack()), old(file.device.env.asked), sought,
                           file.device.env.asked, file.Cursor(), file.OnTrack())
      ensures ok && Certain(file, s, old(file.Cursor()), old(file.OnTrack()), old(file.device.env.asked), sought) ==>
                ram[..] == Spliced(old(ram[..]), addr, ImageOf(file.Content(), s))
      ensures file.Smooth(old(file.device.env.asked)) && file.Straight() && old(file.OnTrack()) ==>
                ok == Delivered(file, s) && (ok ==> file.OnTrack())
    {
      hide Spliced, SameOutside, ImageOf, Zeros, ImageFile.Valid, ImageFile.OnTrack, ImageFile.Whole,
        ImageFile.Content, ImageFile.Lands, ImageFile.Straight, Oracle.Smooth;
      file.IsWired();
      ghost var b0, start, p, on := ram[..], file.device.env.asked, file.Cursor(), file.OnTrack();
      sought := start;
      Untouched(b0, addr, Extent(s));
      if s.rawSize > 0 {
        ok := file.SetFilePointer(s.rawPointer);
        sought := file.device.env.asked;
        if !ok {
          return;
        }
        var read := file.ReadFile(ram, addr, s.rawSize);
        if file.Smooth(start) {
          file.SmoothSteps(start, sought);
          if file.Straight() && on {
            StraightFinds(file, p, s.rawPointer);
            file.SmoothLands(p, on, s.rawPointer, start, sought);
          }
        }
        OutsideWider(b0, ram[..], addr, s.rawSize, Extent(s));
        if read != s.rawSize {
          return false, sought;
        }
      }
      ghost var b1 := ram[..];
      if s.size > s.rawSize {
        Clear(ram, addr + s.rawSize, s.size - s.rawSize);
      }
      ok := true;
      Completed(b0, b1, ram[..], addr, s, file);
    }

    /** One section: allocated and transferred, or given back. */
    method LoadSection(file: ImageFile, s: Section) returns (ok: bool, ghost sought: nat)
      requires Valid() && file.Valid()
      modifies phys, ram, file.Parts()
      ensures file.Valid() && old(file.device.env.asked) <= sought <= file.device.env.asked
      ensures Tried(old(phys.regions), old(ram[..]), phys.regions, ram[..], s, ok, file.Size())
      ensures ok ==> After(file, s, old(file.Cursor()), old(file.OnTrack()), old(file.device.env.asked), sought,
                           file.device.env.asked, file.Cursor(), file.OnTrack())
      ensures ok && Certain(file, s, old(file.Cursor()), old(file.OnTrack()), old(file.device.env.asked), sought) ==>
                ram[..] == Spliced(old(ram[..]), Alloc(old(phys.regions), s.address, s.size, 0, true).1,
                                   ImageOf(file.Content(), s))
      ensures file.Smooth(old(file.device.env.asked)) && file.Straight() && old(file.OnTrack()) ==>
                ok == (Alloc(old(phys.regions), s.address, s.size, 0, true).1 != 0 && Delivered(file, s)) &&
                (ok ==> file.OnTrack())
    {
      hide Alloc, Add, Covered, Disjoint, Above1MB, Addressable, Total, Spliced, SameOutside, ImageOf, After, Certain,
        ImageFile.Valid, ImageFile.OnTrack, ImageFile.Whole, ImageFile.Content, ImageFile.Straight, Oracle.Smooth;
      file.IsWired();
      AllocIsLow(phys.regions, s);
      sought := file.device.env.asked;
      var addr := phys.PhysAlloc(s.address, s.size, 0, true);
      if addr == 0 {
        return false, sought;
      }
      ok, sought := Transfer(file, s, addr);
      if !ok {
        phys.PhysFree(addr, s.size, true);
      }
    }

    /**
     LoadCOFF's section loop.  `fail` is the section at which it stopped.  The free list is then
     that of a roll-back, or lacks the sections.  Memory holds what the sections have written, one
     after the other; for each whose seek has landed that is its image.  In any case only free bytes
     have changed if what hangs over was free.  When nothing fails, the first section that stops it
     has no room or is not delivered.
     */
    method LoadSections(file: ImageFile, sections: array<Section>, isPE: bool, imageBase: u32)
      returns (ok: bool, ghost fail: nat, ghost times: seq<Times>, ghost datas: seq<seq<byte>>)
      requires Valid() && file.Valid()
      modifies phys, ram, sections, file.Parts()
      ensures file.Valid() && old(file.device.env.asked) <= file.device.env.asked
      ensures var (rs, ss) := (old(phys.regions), AllAdjusted(old(sections[..]), isPE, imageBase));
        && fail <= |ss| && (ok <==> fail == |ss|) && Found(rs, ss, fail) && AllReadable(ss, fail, file.Size())
        && phys.regions == (if ok then Rest(rs, ss, fail) else RolledBack(rs, ss, fail))
        && (ok ==> sections[..] == ss)
        && (OverhangsFree(rs, ss, if ok then fail else fail + 1) ==> OnlyFreeChanged(rs, old(ram[..]), ram[..]))
        && |times| == |datas| == fail && Filled(ss, datas, fail)
        && (ok ==> Chained(times, old(file.device.env.asked), file.device.env.asked))
        && ImagesWhereLanded(file, ss, times, datas, old(file.Cursor()), old(file.OnTrack()))
        && (ok ==> ram[..] == Written(old(ram[..]), rs, ss, datas, fail))
        && (ok ==> AllAsRead(rs, phys.regions, ram[..], file, old(sections[..]), isPE, imageBase, times,
                             old(file.Cursor()), old(file.OnTrack())))
        && (file.Smooth(old(file.device.env.asked)) && file.Straight() && old(file.OnTrack()) ==>
              FirstFailure(rs, file, old(sections[..]), isPE, imageBase, fail))
    {
      hide Progress, Alloc, Add, Covered, Disjoint, Above1MB, Addressable, Total, OnlyFreeChanged, OverhangsFree,
        SameOutside, Written, Spliced, ImageOf, Readable, Adjusted, AllReadable, Tried, Found, Spot, Rest, Stopped,
        AddAll, Delivered, Filled, Chained, ImagesWhereLanded, Followed, ImageFile.Valid, ImageFile.Sound,
        ImageFile.Wired, ImageFile.Size, ImageFile.OnTrack, ImageFile.Content, ImageFile.Whole, Oracle.Smooth,
        AllAsRead, FirstFailure, AsDelivered;
      file.IsWired();
      ghost var rs, b0, p, was := phys.regions, ram[..], file.Cursor(), file.OnTrack();
      ghost var hs, ss := sections[..], AllAdjusted(sections[..], isPE, imageBase);
      var i;
      ok, i, times, datas := LoadEach(file, sections, isPE, imageBase);
      fail := i;
      if ok {
        RecordedIsAsRead(rs, b0, ram[..], file, hs, isPE, imageBase, times, datas, p, was);
      }
      StopIsFirstFailure(rs, file, hs, isPE, imageBase, fail, ok);
      ProgressMeans(rs, b0, phys.regions, ram[..], ss, i, ok, file);
      if !ok {
        RollBack(sections, i, ss);
        RolledBackIs(rs, ss, i);
      }
    }

    lemma RolledBackIs(rs: seq<Region>, ss: seq<Section>, i: nat)
      requires i < |ss|
      ensures RolledBack(rs, ss, i) == AddAll(Stopped(rs, ss, i), ss, i)
    {
    }

    /** The sections one by one, up to one that fails. */
    method LoadEach(file: ImageFile, sections: array<Section>, isPE: bool, imageBase: u32)
      returns (ok: bool, i: nat, ghost times: seq<Times>, ghost datas: seq<seq<byte>>)
      requires Valid() && file.Valid()
      modifies phys, ram, sections, file.Parts()
      ensures file.Valid() && old(file.device.env.asked) <= file.device.env.asked
      ensures i <= sections.Length && (ok <==> i == sections.Length)
      ensures var ss := AllAdjusted(old(sections[..]), isPE, imageBase);
        && (forall k :: 0 <= k < i ==> sections[k] == ss[k])
        && Progress(old(phys.regions), old(ram[..]), phys.regions, ram[..], ss, i, ok, file)
        && |times| == |datas| == i && Filled(ss, datas, i)
        && ImagesWhereLanded(file, ss, times, datas, old(file.Cursor()), old(file.OnTrack()))
        && (ok ==> Chained(times, old(file.device.env.asked), file.device.env.asked))
        && (ok ==> Recorded(old(phys.regions), old(ram[..]), ram[..], ss, datas))
        && (file.Smooth(old(file.device.env.asked)) && file.Straight() && old(file.OnTrack()) ==>
              AsDelivered(old(phys.regions), ss, i, ok, file))
    {
      hide *;
      WhenValid();
      file.IsWired();
      ghost var rs, b0, start, p, was := phys.regions, ram[..], file.device.env.asked, file.Cursor(), file.OnTrack();
      ghost var s0, ss := sections[..], AllAdjusted(sections[..], isPE, imageBase);
      times, datas := [], [];
      Begins(rs, b0, ss, file, start, p, was);
      NoneAdjusted(s0, ss);
      i := 0;
      ok := true;
      while i < sections.Length && ok
        invariant 0 <= i <= sections.Length && (!ok ==> i < sections.Length)
        invariant file.Valid() && start <= file.device.env.asked
        invariant UpTo(sections[..], s0, ss, if ok then i else i + 1)
        invariant Progress(rs, b0, phys.regions, ram[..], ss, i, ok, file)
        invariant |times| == |datas| == i && Filled(ss, datas, i)
        invariant ImagesWhereLanded(file, ss, times, datas, p, was)
        invariant ok ==> Recorded(rs, b0, ram[..], ss, datas)
        invariant ok ==> Followed(file, ss, times, datas, p, was, start, file.device.env.asked, file.Cursor(),
                                  file.OnTrack())
        invariant file.device.env.Smooth(start, file.device.env.asked) && file.Straight() && was ==>
                    AsDelivered(rs, ss, i, ok, file) && (ok ==> file.OnTrack())
        decreases sections.Length - i, ok
      {
        ghost var rs1, b1, before, q, on := phys.regions, ram[..], file.device.env.asked, file.Cursor(), file.OnTrack();
        ProgressIsValid(rs, b0, rs1, b1, ss, i, file);
        WhenValid();
        Apart(file, sections);
        OneAdjusted(sections[..], s0, isPE, imageBase, i);
        ghost var was1 := sections[..];
        sections[i] := Adjusted(sections[i], isPE, imageBase);
        assert sections[..] == was1[i := ss[i]];
        ghost var sought;
        ok, sought := LoadSection(file, sections[i]);
        file.SmoothMeans(start);
        if file.Smooth(start) {
          file.SmoothSteps(start, before);
        }
        GoesOn(rs, b0, rs1, b1, phys.regions, ram[..], ss, i, ok, file);
        DeliveryGoesOn(rs, b0, rs1, b1, ss, i, ok, file);
        if ok {
          ghost var data := WrittenNow(rs, b0, rs1, b1, phys.regions, ram[..], ss, datas, file);
          FollowsOn(file, ss, times, datas, p, was, start, before, q, on, sought, file.device.env.asked,
                    file.Cursor(), file.OnTrack(), data);
          times, datas := times + [Times(before, sought, file.device.env.asked)], datas + [data];
          i := i + 1;
        }
      }
      file.SmoothMeans(start);
      FollowedMeans(file, ss, times, datas, p, was, start, file.device.env.asked, file.Cursor(), file.OnTrack(), ok);
      AdjustedSoFar(sections[..], s0, ss, if ok then i else i + 1);
    }

    lemma FollowedMeans(file: ImageFile, ss: seq<Section>, times: seq<Times>, datas: seq<seq<byte>>, p: nat,
                        onTrack: bool, start: nat, now: nat, q: nat, onTrack': bool, ok: bool)
      requires file.Sound() && (ok ==> Followed(file, ss, times, datas, p, onTrack, start, now, q, onTrack'))
      ensures ok ==> Chained(times, start, now)
    {
    }

    lemma NoneAdjusted(s0: seq<Section>, ss: seq<Section>)
      requires |ss| == |s0|
      ensures UpTo(s0, s0, ss, 0)
    {
    }

    lemma OneAdjusted(cur: seq<Section>, s0: seq<Section>, isPE: bool, imageBase: u32, i: nat)
      requires i < |s0| && UpTo(cur, s0, AllAdjusted(s0, isPE, imageBase), i)
      ensures var ss := AllAdjusted(s0, isPE, imageBase);
        |cur| == |ss| && ss[i] == Adjusted(cur[i], isPE, imageBase) && UpTo(cur[i := ss[i]], s0, ss, i + 1)
    {
    }

    lemma AdjustedSoFar(cur: seq<Section>, s0: seq<Section>, ss: seq<Section>, n: nat)
      requires UpTo(cur, s0, ss, n)
      ensures |cur| == |ss| && forall k :: 0 <= k < n && k < |ss| ==> cur[k] == ss[k]
    {
    }

    /** Something failed: PhysFree of the first n sections. */
    method RollBack(sections: array<Section>, n: nat, ghost ss: seq<Section>)
      requires n <= sections.Length == |ss| && forall k :: 0 <= k < n ==> sections[k] == ss[k]
      modifies phys
      ensures phys.regions == AddAll(old(phys.regions), ss, n)
    {
      hide Add;
      for j := 0 to n
        invariant phys.regions == AddAll(old(phys.regions), ss, j)
      {
        phys.PhysFree(sections[j].address, sections[j].size, true);
      }
    }

    lemma ProgressIsValid(rs: seq<Region>, b: seq<byte>, rs': seq<Region>, b': seq<byte>, ss: seq<Section>, n: nat,
                          file: ImageFile)
      requires file.Sound() && Progress(rs, b, rs', b', ss, n, true, file)
      ensures Disjoint(rs') && Above1MB(rs') && Addressable(rs', LAST_BYTE) && |b'| == ADDRESS_SPACE
    {
      hide Disjoint, Above1MB, Covered, Total;
      RestMeets(rs, ss, n);
    }

    lemma ProgressMeans(rs: seq<Region>, b: seq<byte>, rs': seq<Region>, b': seq<byte>, ss: seq<Section>, n: nat,
                        ok: bool, file: ImageFile)
      requires file.Sound() && Progress(rs, b, rs', b', ss, n, ok, file)
      ensures n <= |ss| && Found(rs, ss, n) && AllReadable(ss, n, file.Size()) && AllReadable(ss, n, |file.Content()|)
      ensures rs' == (if ok then Rest(rs, ss, n) else Stopped(rs, ss, n))
      ensures OverhangsFree(rs, ss, if ok then n else n + 1) ==> OnlyFreeChanged(rs, b, b')
    {
    }

    /** One section more, and the three things that are known then. */
    lemma GoesOn(rs: seq<Region>, b: seq<byte>, rs1: seq<Region>, b1: seq<byte>, rs2: seq<Region>, b2: seq<byte>,
                 ss: seq<Section>, n: nat, ok: bool, file: ImageFile)
      requires file.Sound() && Progress(rs, b, rs1, b1, ss, n, true, file) && n < |ss|
      requires Tried(rs1, b1, rs2, b2, ss[n], ok, file.Size())
      ensures Progress(rs, b, rs2, b2, ss, if ok then n + 1 else n, ok, file)
    {
      hide Alloc, Add, Disjoint, Above1MB, Covered, Total, OnlyFreeChanged, Spliced, ImageOf, Readable, Free,
        Addressable, ImageFile.Sound, ImageFile.Content;
      var a := Spot(rs, ss, n);
      ProgressIsValid(rs, b, rs1, b1, ss, n, file);
      AllocIsFree(rs1, ss[n].address, ss[n].size, 0, LAST_BYTE);
      if a != 0 && OverhangsFree(rs, ss, n + 1) {
        assert ss[n] == ss[n];
        WritesAreFreeIff(rs, ss, n);
        ChangesAdd(rs, b, b1, b2, a, Extent(ss[n]));
      }
    }

    /** What a section has written, as a sequence. */
    lemma WrittenNow(rs: seq<Region>, b: seq<byte>, rs1: seq<Region>, b1: seq<byte>, rs2: seq<Region>, b2: seq<byte>,
                     ss: seq<Section>, datas: seq<seq<byte>>, file: ImageFile) returns (data: seq<byte>)
      requires file.Sound() && |datas| < |ss| && Progress(rs, b, rs1, b1, ss, |datas|, true, file)
      requires Tried(rs1, b1, rs2, b2, ss[|datas|], true, file.Size()) && Recorded(rs, b, b1, ss, datas)
      ensures Recorded(rs, b, b2, ss, datas + [data]) && Filled(ss, datas + [data], |datas| + 1)
      ensures var (s, a) := (ss[|datas|], Alloc(rs1, ss[|datas|].address, ss[|datas|].size, 0, true).1);
        && Readable(s, file.Size()) && a + Extent(s) <= |b1|
        && (b2 == Spliced(b1, a, ImageOf(file.Content(), s)) ==> data == ImageOf(file.Content(), s))
    {
      hide Alloc, Add, Disjoint, Above1MB, Covered, Total, OnlyFreeChanged, Spliced, ImageOf, Readable, Free,
        Addressable, Written, SameOutside, ImageFile.Sound, ImageFile.Content;
      var n := |datas|;
      var a := Spot(rs, ss, n);
      CutOut(b1, b2, a, Extent(ss[n]));
      data := b2[a..a + Extent(ss[n])];
      WhatIsCutOut(b1, a, ImageOf(file.Content(), ss[n]));
      WrittenOneMore(rs, b, ss, datas, data);
    }

    /** A change in one range is a splice of what is in it. */
    lemma CutOut(b: seq<byte>, b': seq<byte>, a: nat, n: nat)
      requires SameOutside(b, b', a, n) && a + n <= |b|
      ensures |b'| == |b| && b' == Spliced(b, a, b'[a..a + n])
    {
      var t := Spliced(b, a, b'[a..a + n]);
      assert |t| == |b'| && forall x :: 0 <= x < |t| ==> t[x] == b'[x];
    }

    lemma WhatIsCutOut(b: seq<byte>, a: nat, data: seq<byte>)
      requires a + |data| <= |b|
      ensures Spliced(b, a, data)[a..a + |data|] == data
    {
    }

    lemma WrittenOneMore(rs: seq<Region>, b: seq<byte>, ss: seq<Section>, datas: seq<seq<byte>>, data: seq<byte>)
      requires |datas| < |ss| && Disjoint(rs) && Above1MB(rs) && Addressable(rs, LAST_BYTE) && |b| == ADDRESS_SPACE
      requires Found(rs, ss, |datas| + 1) && Filled(ss, datas, |datas|) && |data| == Extent(ss[|datas|])
      ensures Filled(ss, datas + [data], |datas| + 1) && Spot(rs, ss, |datas|) + |data| <= ADDRESS_SPACE
      ensures Written(b, rs, ss, datas + [data], |datas| + 1)
           == Spliced(Written(b, rs, ss, datas, |datas|), Spot(rs, ss, |datas|), data)
    {
      hide Disjoint, Above1MB, Addressable, Spot, Spliced;
      RangeWasFree(rs, ss, |datas|);
      SameWritten(rs, b, ss, datas, datas + [data], |datas|);
    }

    lemma {:induction false} SameWritten(rs: seq<Region>, b: seq<byte>, ss: seq<Section>, datas: seq<seq<byte>>,
                                         datas': seq<seq<byte>>, n: nat)
      requires n <= |ss| && Disjoint(rs) && Above1MB(rs) && Addressable(rs, LAST_BYTE) && |b| == ADDRESS_SPACE
      requires Found(rs, ss, n) && Filled(ss, datas, n) && datas <= datas'
      ensures Filled(ss, datas', n) && Written(b, rs, ss, datas', n) == Written(b, rs, ss, datas, n)
    {
      hide Disjoint, Above1MB, Addressable, Spot, Spliced;
      if n > 0 {
        SameWritten(rs, b, ss, datas, datas', n - 1);
        assert datas'[n - 1] == datas[n - 1];
      }
    }

    lemma FollowsOn(file: ImageFile, ss: seq<Section>, times: seq<Times>, datas: seq<seq<byte>>, p: nat, onTrack: bool,
                    start: nat, begun: nat, q: nat, on: bool, sought: nat, ended: nat, q': nat, on': bool,
                    data: seq<byte>)
      requires file.Sound() && |datas| < |ss| && Followed(file, ss, times, datas, p, onTrack, start, begun, q, on)
      requires begun <= sought <= ended && Readable(ss[|datas|], |file.Content()|)
      requires After(file, ss[|datas|], q, on, begun, sought, ended, q', on')
      requires Certain(file, ss[|datas|], q, on, begun, sought) ==> data == ImageOf(file.Content(), ss[|datas|])
      ensures var times', datas' := times + [Times(begun, sought, ended)], datas + [data];
        && Followed(file, ss, times', datas', p, onTrack, start, ended, q', on')
        && ImagesWhereLanded(file, ss, times', datas', p, onTrack)
    {
      hide ImageOf, Readable, ImageFile.Sound, ImageFile.Wired, ImageFile.Content, ImageFile.Lands, Oracle.Smooth;
      file.SoundIsWired();
      var k, times', datas' := |datas|, times + [Times(begun, sought, ended)], datas + [data];
      assert times'[..k] == times && times'[..k + 1] == times';
      LandsMore(file, q, TrackedAfter(file, ss, times, p, onTrack), on, ss[k].rawPointer, begun, sought);
      assert Chained(times', start, ended);
      assert q' == CursorAfter(ss, p, k + 1);
      if TrackedAfter(file, ss, times', p, onTrack) {
        assert ss[k].rawSize != 0 ==> Landed(file, ss, times', p, onTrack) && file.device.env.Smooth(sought, ended);
        assert on';
      }
      forall j {:trigger datas'[j]} | 0 <= j < |datas'|
                                      && (ss[j].rawSize == 0 || Landed(file, ss, times'[..j + 1], p, onTrack))
        ensures Readable(ss[j], |file.Content()|) && datas'[j] == ImageOf(file.Content(), ss[j])
      {
        if j < k {
          assert times'[..j + 1] == times[..j + 1] && datas'[j] == datas[j];
        }
      }
    }

    /** What is known to land from what is known lands from what is. */
    lemma LandsMore(file: ImageFile, p: nat, known: bool, on: bool, t: nat, begun: nat, sought: nat)
      requires file.Wired() && (known ==> on)
      ensures file.Lands(p, known, t, begun, sought) ==> file.Lands(p, on, t, begun, sought)
    {
    }

    lemma DeliveryGoesOn(rs: seq<Region>, b: seq<byte>, rs1: seq<Region>, b1: seq<byte>, ss: seq<Section>, n: nat,
                         ok: bool, file: ImageFile)
      requires file.Sound() && Progress(rs, b, rs1, b1, ss, n, true, file) && n < |ss|
      ensures AsDelivered(rs, ss, n, true, file) &&
              ok == (Alloc(rs1, ss[n].address, ss[n].size, 0, true).1 != 0 && Delivered(file, ss[n])) ==>
                AsDelivered(rs, ss, if ok then n + 1 else n, ok, file)
    {
      hide Alloc, Add, Disjoint, Above1MB, Covered, Total, OnlyFreeChanged, SameOutside, Spliced, ImageOf, Readable,
        Free, Addressable, ImageFile.Sound, ImageFile.Content, Delivered;
    }

    lemma Begins(rs: seq<Region>, b: seq<byte>, ss: seq<Section>, file: ImageFile, start: nat, p: nat, onTrack: bool)
      requires Disjoint(rs) && Above1MB(rs) && Addressable(rs, LAST_BYTE) && file.Sound() && |b| == ADDRESS_SPACE
      ensures Progress(rs, b, rs, b, ss, 0, true, file) && AsDelivered(rs, ss, 0, true, file)
      ensures Recorded(rs, b, b, ss, []) && Filled(ss, [], 0)
      ensures ImagesWhereLanded(file, ss, [], [], p, onTrack)
      ensures Followed(file, ss, [], [], p, onTrack, start, start, p, onTrack)
    {
      NothingChanged(rs, b);
    }
  }
}

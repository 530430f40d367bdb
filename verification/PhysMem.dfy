/**
 The free-region list of src/mem.c.  Regions are byte ranges; the list is a sequence in
 list order, which the methods reassign as the source resizes, inserts and unlinks nodes.
 Whether malloc can supply a list node is an input (`node`).
 */
module PhysMem {
  import opened Arith
  import opened Common

  const ONE_MB: nat := 0x10_0000

  datatype Region = Region(addr: nat, size: nat) {
    function End(): nat { addr + size }
  }

  predicate In(r: Region, x: int) { r.addr <= x < r.End() }

  predicate Overlap(a: Region, b: Region) {
    a.addr < b.End() && b.addr < a.End() && 0 < a.size && 0 < b.size
  }

  /** Some region of the list holds byte x. */
  ghost predicate Covered(rs: seq<Region>, x: int) {
    exists i :: 0 <= i < |rs| && In(rs[i], x)
  }

  ghost predicate Disjoint(rs: seq<Region>) {
    forall i, j {:trigger Overlap(rs[i], rs[j])} :: 0 <= i < |rs| && 0 <= j < |rs| && i != j ==> !Overlap(rs[i], rs[j])
  }

  ghost predicate Above1MB(rs: seq<Region>) {
    forall i :: 0 <= i < |rs| ==> ONE_MB <= rs[i].addr
  }

  /** Bytes on the list. */
  function Total(rs: seq<Region>): nat {
    if rs == [] then 0 else rs[0].size + Total(rs[1..])
  }

  // ---------------------------------------------------------------- AddToPhysList

  /** The part of [start, start + length) at or above 1 MB, when there is one. */
  function Clamp(start: nat, length: nat): Region
    requires ONE_MB < start + length
  {
    if start < ONE_MB then Region(ONE_MB, start + length - ONE_MB) else Region(start, length)
  }

  /** Two ranges that overlap or meet end to end. */
  predicate Touches(a: Region, b: Region) {
    b.addr <= a.End() && a.addr <= b.End()
  }

  /** The smallest range that contains both. */
  function Hull(a: Region, b: Region): (h: Region)
    ensures Touches(a, b) ==> forall x :: In(h, x) <==> In(a, x) || In(b, x)
  {
    var lo := if a.addr < b.addr then a.addr else b.addr;
    var hi := if a.End() < b.End() then b.End() else a.End();
    Region(lo, hi - lo)
  }

  /** The first region that touches r; |rs| when none does. */
  function FirstTouching(rs: seq<Region>, r: Region): (i: nat)
    ensures i <= |rs|
    ensures i < |rs| ==> Touches(rs[i], r)
    ensures forall j :: 0 <= j < i ==> !Touches(rs[j], r)
  {
    if rs == [] || Touches(rs[0], r) then 0 else 1 + FirstTouching(rs[1..], r)
  }

  function Insert(rs: seq<Region>, r: Region, node: bool): (seq<Region>, bool) {
    var i := FirstTouching(rs, r);
    if i < |rs| then (rs[i := Hull(rs[i], r)], true)
    else if node then ([r] + rs, true)
    else (rs, false)
  }

  function Add(rs: seq<Region>, start: nat, length: nat, node: bool): (seq<Region>, bool) {
    if start + length <= ONE_MB then (rs, true) else Insert(rs, Clamp(start, length), node)
  }

  /** Adding yields exactly the old cover and the part of the new range above 1 MB. */
  lemma AddCovers(rs: seq<Region>, start: nat, length: nat, node: bool, x: int)
    ensures var (rs', ok) := Add(rs, start, length, node);
      Covered(rs', x) <==> Covered(rs, x) || (ok && ONE_MB <= x && start <= x < start + length)
    ensures !Add(rs, start, length, node).1 ==> Add(rs, start, length, node).0 == rs
  {
    if ONE_MB < start + length {
      InsertCovers(rs, Clamp(start, length), node, x);
    }
  }

  lemma InsertCovers(rs: seq<Region>, r: Region, node: bool, x: int)
    ensures var (rs', ok) := Insert(rs, r, node); Covered(rs', x) <==> Covered(rs, x) || (ok && In(r, x))
  {
    var (rs', ok) := Insert(rs, r, node);
    var i := FirstTouching(rs, r);
    if Covered(rs, x) {
      var k :| 0 <= k < |rs| && In(rs[k], x);
      assert In(rs'[if i < |rs| || !node then k else k + 1], x);
    }
    if ok && In(r, x) {
      assert In(rs'[if i < |rs| then i else 0], x);
    }
    if Covered(rs', x) {
      var k :| 0 <= k < |rs'| && In(rs'[k], x);
      assert i < |rs| ==> In(rs[k], x) || In(r, x);
      assert i == |rs| && node && 0 < k ==> In(rs[k - 1], x);
    }
  }

  /** No region but the joined one shares a byte with r. */
  ghost predicate ClearOfOthers(rs: seq<Region>, r: Region) {
    forall j :: 0 <= j < |rs| && j != FirstTouching(rs, r) ==> !Overlap(rs[j], r)
  }

  /**
   Joining stops at the first region that touches, so a disjoint list stays disjoint exactly
   when no other region overlaps the new range.
   */
  lemma AddKeepsDisjointIff(rs: seq<Region>, start: nat, length: nat)
    requires Disjoint(rs) && ONE_MB < start + length
    ensures Disjoint(Add(rs, start, length, true).0) <==> ClearOfOthers(rs, Clamp(start, length))
  {
    InsertKeepsDisjointIff(rs, Clamp(start, length));
  }

  lemma InsertKeepsDisjointIff(rs: seq<Region>, r: Region)
    requires Disjoint(rs)
    ensures Disjoint(Insert(rs, r, true).0) <==> ClearOfOthers(rs, r)
  {
    var i := FirstTouching(rs, r);
    var rs' := Insert(rs, r, true).0;
    if i < |rs| {
      forall j | 0 <= j < |rs| && j != i
        ensures Overlap(rs'[i], rs[j]) <==> Overlap(r, rs[j])
      {
        HullOverlap(rs[i], r, rs[j]);
      }
      if !ClearOfOthers(rs, r) {
        var j :| 0 <= j < |rs| && j != i && Overlap(rs[j], r);
        assert Overlap(rs'[i], rs'[j]);
      }
    } else {
      forall j | 0 <= j < |rs| ensures rs'[j + 1] == rs[j] && !Overlap(rs[j], r) {}
    }
  }

  lemma HullOverlap(a: Region, b: Region, c: Region)
    requires Touches(a, b)
    ensures Overlap(Hull(a, b), c) <==> Overlap(a, c) || Overlap(b, c)
  {
  }

  /** A list of two regions that a range overlapping both turns into overlapping regions. */
  lemma AddMayOverlap()
    ensures var rs := [Region(0x10_0000, 0x10_0000), Region(0x30_0000, 0x10_0000)];
      Disjoint(rs) && !Disjoint(Add(rs, 0x18_0000, 0x20_0000, true).0)
  {
    var rs := [Region(0x10_0000, 0x10_0000), Region(0x30_0000, 0x10_0000)];
    var rs' := Add(rs, 0x18_0000, 0x20_0000, true).0;
    assert rs'[0] == Region(0x10_0000, 0x28_0000) && rs'[1] == rs[1];
    assert Overlap(rs'[0], rs'[1]);
  }

  // ---------------------------------------------------------------- PhysAlloc

  /** The size PhysAlloc works with: rounded up to a multiple of 4. */
  function Rounded(size: nat): nat { (size + 3) / 4 * 4 }

  lemma RoundedIsLeastMultiple(size: nat)
    ensures Rounded(size) % 4 == 0 && size <= Rounded(size) < size + 4
  {
  }

  /** 0 stands for 1; otherwise an alignment is a power of two that fits 32 bits. */
  predicate ValidAlignment(alignment: nat) {
    alignment == 0 || (alignment <= 0x8000_0000 && 0x1_0000_0000 % alignment == 0)
  }

  function Effective(alignment: nat): nat { if alignment == 0 then 1 else alignment }

  /**
   (Address + Alignment - 1) & -Alignment, where the mask is a 32-bit value: for a power of
   two al it keeps the low 32 bits and clears the lowest ones.
   */
  function MaskUp(a: nat, al: nat): nat
    requires 0 < al
  {
    var x := (a + al - 1) % 0x1_0000_0000;
    x - x % al
  }

  /** Where the allocation would begin in region r. */
  function StartIn(r: Region, start: nat, alignment: nat): nat {
    if start != 0 then start else MaskUp(r.addr, Effective(alignment))
  }

  predicate Fits(r: Region, start: nat, size: nat, alignment: nat) {
    var s := StartIn(r, start, alignment);
    r.addr <= s && s + Rounded(size) <= r.End()
  }

  function FirstFitting(rs: seq<Region>, start: nat, size: nat, alignment: nat): (i: nat)
    ensures i <= |rs|
    ensures i < |rs| ==> Fits(rs[i], start, size, alignment)
    ensures forall j :: 0 <= j < i ==> !Fits(rs[j], start, size, alignment)
  {
    if rs == [] || Fits(rs[0], start, size, alignment) then 0 else 1 + FirstFitting(rs[1..], start, size, alignment)
  }

  /** Region i without [s, s + n): shortened, moved, dropped, or cut in two. */
  function Carve(rs: seq<Region>, i: nat, s: nat, n: nat, node: bool): seq<Region>
    requires i < |rs| && rs[i].addr <= s && s + n <= rs[i].End()
  {
    var before := s - rs[i].addr;
    var after := rs[i].End() - (s + n);
    if before != 0 then
      var rs' := rs[i := Region(rs[i].addr, before)];
      if after != 0 then Add(rs', s + n, after, node).0 else rs'
    else if after != 0 then rs[i := Region(s + n, after)]
    else rs[..i] + rs[i + 1..]
  }

  /** PhysAlloc; the answer is a pointer of 32 bits, and 0 stands for NULL. */
  function Alloc(rs: seq<Region>, start: nat, size: nat, alignment: nat, node: bool): (seq<Region>, nat) {
    if Rounded(size) == 0 then (rs, 0) else
    var i := FirstFitting(rs, start, size, alignment);
    if i == |rs| then (rs, 0) else
    var s := StartIn(rs[i], start, alignment);
    (Carve(rs, i, s, Rounded(size), node), s % 0x1_0000_0000)
  }

  /** s is the lowest multiple of al at or above a. */
  ghost predicate LowestAligned(s: int, a: int, al: nat)
    requires 0 < al
  {
    s % al == 0 && a <= s < a + al
  }

  /** The mask works because 2^32 is a multiple of the alignment, too. */
  lemma MaskUpIsLowestAligned(a: nat, al: nat, s: nat)
    requires ValidAlignment(al) && 0 < al && LowestAligned(s, a, al) && 0 < a
    ensures s < 0x1_0000_0000 ==> MaskUp(a, al) == s
    ensures s >= 0x1_0000_0000 ==> MaskUp(a, al) < a
  {
    var k := 0x1_0000_0000;
    var p, q := s / al, k / al;
    assert s == al * p && k == al * q;
    var y := a + al - 1;
    if s < k {
      MulOrder(al, p, q);
      assert y % k == y;
      QuotientIs(y, al, p, y - s);
    } else if a < k {
      assert y % k == y - k;
      QuotientIs(y - k, al, 0, y - k);
    }
  }

  /** A start address for `size` bytes that PhysAlloc would accept in region r. */
  ghost predicate Placement(r: Region, start: nat, size: nat, alignment: nat, s: nat) {
    && r.addr <= s && s + Rounded(size) <= r.End()
    && if start != 0 then s == start else LowestAligned(s, r.addr, Effective(alignment)) && s < 0x1_0000_0000
  }

  lemma PlacementExists(r: Region, start: nat, size: nat, alignment: nat)
    requires ValidAlignment(alignment) && 0 < r.addr
    ensures Fits(r, start, size, alignment) ==> Placement(r, start, size, alignment, StartIn(r, start, alignment))
    ensures forall s :: Placement(r, start, size, alignment, s) ==>
              Fits(r, start, size, alignment) && s == StartIn(r, start, alignment)
  {
    if start == 0 {
      var al := Effective(alignment);
      var t := r.addr + al - 1 - (r.addr + al - 1) % al;
      QuotientIs(t, al, (r.addr + al - 1) / al, 0);
      MaskUpIsLowestAligned(r.addr, al, t);
      forall s | Placement(r, start, size, alignment, s) ensures s == MaskUp(r.addr, al) {
        MaskUpIsLowestAligned(r.addr, al, s);
      }
    }
  }

  /** There is a place for the allocation in some free region. */
  ghost predicate Placeable(rs: seq<Region>, start: nat, size: nat, alignment: nat) {
    0 < size && exists i, s :: 0 <= i < |rs| && Placement(rs[i], start, size, alignment, s)
  }

  /** PhysAlloc has cut its range out at s, and the answer is what 32 bits hold of s. */
  ghost predicate Placed(rs: seq<Region>, start: nat, size: nat, alignment: nat, node: bool, s: nat) {
    exists i :: 0 <= i < |rs| && Placement(rs[i], start, size, alignment, s)
                && Alloc(rs, start, size, alignment, node) == (Carve(rs, i, s, Rounded(size), node), s % 0x1_0000_0000)
  }

  /**
   PhysAlloc takes a range exactly when a single free region can hold the rounded size at the
   fixed address, or at its lowest aligned address below 4 GB.  The answer names the range's start
   if and only if a fixed address is below 4 GB; then it is NULL exactly when nothing was taken.
   */
  lemma AllocSucceedsIff(rs: seq<Region>, start: nat, size: nat, alignment: nat, node: bool)
    requires ValidAlignment(alignment) && Above1MB(rs)
    ensures var (rs', a) := Alloc(rs, start, size, alignment, node);
      && (!Placeable(rs, start, size, alignment) ==> (rs', a) == (rs, 0))
      && (Placeable(rs, start, size, alignment) ==>
            exists s :: Placed(rs, start, size, alignment, node, s) && (a == s <==> start < 0x1_0000_0000))
      && (start < 0x1_0000_0000 ==>
            && (a != 0 <==> Placeable(rs, start, size, alignment))
            && (a != 0 ==> exists i :: 0 <= i < |rs| && Placement(rs[i], start, size, alignment, a))
            && (a == 0 ==> rs' == rs))
  {
    hide Placement, Carve, StartIn, FirstFitting, Above1MB, ValidAlignment;
    FirstFittingPlaces(rs, start, size, alignment);
    var i := FirstFitting(rs, start, size, alignment);
    if 0 < size && i < |rs| {
      var s := StartIn(rs[i], start, alignment);
      PlacedAbove(rs, i, start, size, alignment, s);
      assert Placed(rs, start, size, alignment, node, s);
    }
  }

  lemma FirstFittingPlaces(rs: seq<Region>, start: nat, size: nat, alignment: nat)
    requires ValidAlignment(alignment) && Above1MB(rs)
    ensures var i := FirstFitting(rs, start, size, alignment);
      && (0 < size && i < |rs| <==> Placeable(rs, start, size, alignment))
      && (i < |rs| ==> Placement(rs[i], start, size, alignment, StartIn(rs[i], start, alignment)))
  {
    hide Fits, LowestAligned;
    forall j | 0 <= j < |rs|
      ensures Fits(rs[j], start, size, alignment) ==>
                Placement(rs[j], start, size, alignment, StartIn(rs[j], start, alignment))
      ensures forall s :: Placement(rs[j], start, size, alignment, s) ==> Fits(rs[j], start, size, alignment)
    {
      PlacementExists(rs[j], start, size, alignment);
    }
  }

  /** And the region is the first one on the list that can. */
  lemma AllocTakesTheFirst(rs: seq<Region>, start: nat, size: nat, alignment: nat, node: bool)
    requires ValidAlignment(alignment) && Above1MB(rs) && start < 0x1_0000_0000
    ensures var a := Alloc(rs, start, size, alignment, node).1;
      a != 0 ==>
        exists i :: 0 <= i < |rs| && Placement(rs[i], start, size, alignment, a) &&
          forall j, s :: 0 <= j < i ==> !Placement(rs[j], start, size, alignment, s)
  {
    hide Fits, LowestAligned, Placement, MaskUp, Carve, Rounded;
    FirstFittingPlaces(rs, start, size, alignment);
    var i := FirstFitting(rs, start, size, alignment);
    if i < |rs| {
      NotCut(rs[i], start, alignment);
      forall j, s | 0 <= j < i ensures !Placement(rs[j], start, size, alignment, s) {
        PlacementExists(rs[j], start, size, alignment);
      }
    }
  }

  lemma PlacedAbove(rs: seq<Region>, i: nat, start: nat, size: nat, alignment: nat, s: nat)
    requires Above1MB(rs) && i < |rs| && Placement(rs[i], start, size, alignment, s)
    ensures rs[i].addr <= s && s + Rounded(size) <= rs[i].End() && 0 < s
    ensures s % 0x1_0000_0000 == s <==> start < 0x1_0000_0000
  {
    hide LowestAligned;
  }

  /** A fixed address of 4 GB is answered with NULL, one 1 MB above it with 1 MB; both ranges are gone. */
  lemma HighAddressesAreCut()
    ensures Alloc([Region(0x1_0000_0000, 0x1000)], 0x1_0000_0000, 0x1000, 0, true) == ([], 0)
    ensures Alloc([Region(0x1_0010_0000, 0x1000)], 0x1_0010_0000, 0x1000, 0, true) == ([], ONE_MB)
  {
    WholeRegion(0x1_0000_0000, 0x1000);
    WholeRegion(0x1_0010_0000, 0x1000);
  }

  lemma WholeRegion(start: nat, size: nat)
    requires 0 < start && 0 < size && size % 4 == 0
    ensures Alloc([Region(start, size)], start, size, 0, true) == ([], start % 0x1_0000_0000)
  {
    var rs := [Region(start, size)];
    assert Fits(rs[0], start, size, 0);
    assert rs[..0] + rs[1..] == [];
  }

  /** A cut takes exactly its bytes out of the free set, and keeps the list disjoint. */
  lemma CarveMeets(rs: seq<Region>, i: nat, s: nat, n: nat)
    requires Disjoint(rs) && Above1MB(rs) && i < |rs| && rs[i].addr <= s && s + n <= rs[i].End() && 0 < n
    ensures var rs' := Carve(rs, i, s, n, true);
      && Disjoint(rs') && Above1MB(rs')
      && Total(rs') + n == Total(rs)
      && forall x :: Covered(rs', x) <==> Covered(rs, x) && !(s <= x < s + n)
  {
    hide Disjoint, Covered, Above1MB, Total, Insert;
    RegionIsThere(rs, i);
    var before, after := s - rs[i].addr, rs[i].End() - (s + n);
    if before != 0 && after != 0 {
      CutInTwo(rs, i, s, n);
    } else if before != 0 {
      ShrinkMeets(rs, i, Region(rs[i].addr, before));
    } else if after != 0 {
      ShrinkMeets(rs, i, Region(s + n, after));
    } else {
      DropMeets(rs, i);
    }
  }

  lemma RegionIsThere(rs: seq<Region>, i: nat)
    requires Above1MB(rs) && i < |rs|
    ensures ONE_MB <= rs[i].addr && forall x :: In(rs[i], x) ==> Covered(rs, x)
  {
  }

  lemma CutInTwo(rs: seq<Region>, i: nat, s: nat, n: nat)
    requires Disjoint(rs) && Above1MB(rs) && i < |rs| && rs[i].addr < s && s + n < rs[i].End() && 0 < n
    ensures var left, right := Region(rs[i].addr, s - rs[i].addr), Region(s + n, rs[i].End() - (s + n));
      var rs' := Insert(rs[i := left], right, true).0;
      && Disjoint(rs') && Above1MB(rs')
      && Total(rs') + n == Total(rs)
      && forall x :: Covered(rs', x) <==> Covered(rs, x) && !(s <= x < s + n)
  {
    var left, right := Region(rs[i].addr, s - rs[i].addr), Region(s + n, rs[i].End() - (s + n));
    var rs1 := rs[i := left];
    ShrinkMeets(rs, i, left);
    forall j | 0 <= j < |rs1| ensures !Overlap(rs1[j], right) {
      assert j != i ==> !Overlap(rs[i], rs[j]) && !Overlap(rs[j], rs[i]);
    }
    InsertMeets(rs1, right);
    forall x ensures Covered(Insert(rs1, right, true).0, x) <==> Covered(rs, x) && !(s <= x < s + n) {
      InsertCovers(rs1, right, true, x);
      assert In(right, x) ==> In(rs[i], x);
    }
  }

  lemma {:induction false} TotalUpdate(rs: seq<Region>, i: nat, r: Region)
    requires i < |rs|
    ensures Total(rs[i := r]) == Total(rs) - rs[i].size + r.size
    ensures Total(rs) >= rs[i].size
  {
    if i == 0 {
      assert rs[i := r][1..] == rs[1..];
    } else {
      TotalUpdate(rs[1..], i - 1, r);
      assert rs[i := r][1..] == rs[1..][i - 1 := r];
    }
  }

  lemma {:induction false} TotalDrop(rs: seq<Region>, i: nat)
    requires i < |rs|
    ensures Total(rs[..i] + rs[i + 1..]) == Total(rs) - rs[i].size
  {
    if i == 0 {
      assert rs[..0] + rs[1..] == rs[1..];
    } else {
      TotalDrop(rs[1..], i - 1);
      assert (rs[..i] + rs[i + 1..])[1..] == rs[1..][..i - 1] + rs[1..][i..];
    }
  }

  /** Region i reduced to a part of itself. */
  lemma ShrinkMeets(rs: seq<Region>, i: nat, r: Region)
    requires Disjoint(rs) && Above1MB(rs) && i < |rs| && rs[i].addr <= r.addr && r.End() <= rs[i].End()
    ensures var rs' := rs[i := r];
      && Disjoint(rs') && Above1MB(rs') && Total(rs') + (rs[i].size - r.size) == Total(rs)
      && forall x :: Covered(rs', x) <==> Covered(rs, x) && !(In(rs[i], x) && !In(r, x))
  {
    var rs' := rs[i := r];
    TotalUpdate(rs, i, r);
    forall j, k {:trigger Overlap(rs'[j], rs'[k])} | 0 <= j < |rs| && 0 <= k < |rs| && j != k
      ensures !Overlap(rs'[j], rs'[k])
    {
      assert !Overlap(rs[j], rs[k]);
    }
    forall x ensures Covered(rs', x) <==> Covered(rs, x) && !(In(rs[i], x) && !In(r, x)) {
      if Covered(rs', x) {
        var k :| 0 <= k < |rs'| && In(rs'[k], x);
        assert In(rs[k], x);
        assert k != i ==> !Overlap(rs[k], rs[i]) && !Overlap(rs[i], rs[k]);
      }
      if Covered(rs, x) && !(In(rs[i], x) && !In(r, x)) {
        var k :| 0 <= k < |rs| && In(rs[k], x);
        assert In(rs'[if In(rs[i], x) then i else k], x);
      }
    }
  }

  lemma DropMeets(rs: seq<Region>, i: nat)
    requires Disjoint(rs) && Above1MB(rs) && i < |rs|
    ensures var rs' := rs[..i] + rs[i + 1..];
      && Disjoint(rs') && Above1MB(rs') && Total(rs') + rs[i].size == Total(rs)
      && forall x :: Covered(rs', x) <==> Covered(rs, x) && !In(rs[i], x)
  {
    var rs' := rs[..i] + rs[i + 1..];
    TotalDrop(rs, i);
    forall k | 0 <= k < |rs'| ensures rs'[k] == rs[if k < i then k else k + 1] {}
    assert Disjoint(rs') && Above1MB(rs');
    forall x ensures Covered(rs', x) <==> Covered(rs, x) && !In(rs[i], x) {
      DropCovers(rs, i, x);
    }
  }

  lemma DropCovers(rs: seq<Region>, i: nat, x: int)
    requires Disjoint(rs) && i < |rs|
    ensures Covered(rs[..i] + rs[i + 1..], x) <==> Covered(rs, x) && !In(rs[i], x)
  {
    var rs' := rs[..i] + rs[i + 1..];
    if Covered(rs', x) {
      var k :| 0 <= k < |rs'| && In(rs'[k], x);
      var j := if k < i then k else k + 1;
      assert In(rs[j], x) && j != i;
      assert !Overlap(rs[j], rs[i]) && !Overlap(rs[i], rs[j]);
    }
    if Covered(rs, x) && !In(rs[i], x) {
      var k :| 0 <= k < |rs| && In(rs[k], x);
      assert In(rs'[if k < i then k else k - 1], x);
    }
  }

  /** Adding a range that no region overlaps. */
  lemma InsertMeets(rs: seq<Region>, r: Region)
    requires Disjoint(rs) && Above1MB(rs) && ONE_MB <= r.addr
    requires forall j :: 0 <= j < |rs| ==> !Overlap(rs[j], r)
    ensures var rs' := Insert(rs, r, true).0;
      Disjoint(rs') && Above1MB(rs') && Total(rs') == Total(rs) + r.size
  {
    InsertKeepsDisjointIff(rs, r);
    var i := FirstTouching(rs, r);
    if i < |rs| {
      TotalUpdate(rs, i, Hull(rs[i], r));
    }
  }

  // ---------------------------------------------------------------- whole runs

  /**
   The free list, the ranges handed out (`asked` has the size each client named, `held` the
   range that PhysAlloc took), and the rounding bytes that PhysFree never gave back.
   */
  datatype Phys = Phys(free: seq<Region>, held: seq<Region>, asked: seq<nat>, lost: seq<Region>)

  datatype Request = AllocRequest(start: nat, size: nat, alignment: nat) | FreeRequest(k: nat)

  ghost predicate NoCommonByte(a: seq<Region>, b: seq<Region>) {
    forall x :: !(Covered(a, x) && Covered(b, x))
  }

  /** Each held range is its client's size, rounded. */
  predicate Sized(p: Phys) {
    |p.held| == |p.asked| && forall k :: 0 <= k < |p.held| ==> p.held[k].size == Rounded(p.asked[k])
  }

  ghost predicate PhysInv(p: Phys) {
    && Disjoint(p.free) && Disjoint(p.held) && Disjoint(p.lost)
    && NoCommonByte(p.free, p.held) && NoCommonByte(p.free, p.lost) && NoCommonByte(p.held, p.lost)
    && Above1MB(p.free) && Above1MB(p.held) && Above1MB(p.lost)
    && Sized(p) && forall k :: 0 <= k < |p.asked| ==> 0 < p.asked[k]
  }

  ghost predicate AnyCovered(p: Phys, x: int) {
    Covered(p.free, x) || Covered(p.held, x) || Covered(p.lost, x)
  }

  function AllBytes(p: Phys): nat { Total(p.free) + Total(p.held) + Total(p.lost) }

  predicate Allowed(p: Phys, r: Request) {
    match r
    case AllocRequest(_, _, alignment) => ValidAlignment(alignment)
    case FreeRequest(k) => k < |p.held|
  }

  /** A fixed address that a pointer holds. */
  predicate IsLow(r: Request) { r.AllocRequest? ==> r.start < 0x1_0000_0000 }

  function Push(rs: seq<Region>, r: Region): seq<Region> { if r.size == 0 then rs else [r] + rs }

  /** PhysAlloc, or PhysFree with the size named at allocation; list nodes can be had. */
  function PhysStep(p: Phys, r: Request): Phys
    requires Sized(p) && Allowed(p, r)
  {
    match r
    case AllocRequest(start, size, alignment) =>
      var (free, a) := Alloc(p.free, start, size, alignment, true);
      if a == 0 then p.(free := free)
      else Phys(free, Push(p.held, Region(a, Rounded(size))), [size] + p.asked, p.lost)
    case FreeRequest(k) =>
      var (r, n) := (p.held[k], p.asked[k]);
      Phys(Add(p.free, r.addr, n, true).0,
           p.held[..k] + p.held[k + 1..], p.asked[..k] + p.asked[k + 1..],
           Push(p.lost, Region(r.addr + n, r.size - n)))
  }

  lemma PushMeets(rs: seq<Region>, r: Region)
    requires Disjoint(rs) && Above1MB(rs) && ONE_MB <= r.addr
    requires forall x :: Covered(rs, x) ==> !In(r, x)
    ensures var l := Push(rs, r);
      && Disjoint(l) && Above1MB(l) && Total(l) == Total(rs) + r.size
      && forall x :: Covered(l, x) <==> Covered(rs, x) || In(r, x)
  {
    if r.size != 0 {
      var l := [r] + rs;
      assert l[1..] == rs;
      forall j | 0 <= j < |rs| ensures !Overlap(r, rs[j]) && !Overlap(rs[j], r) {
        NoOverlap(rs, r, j);
      }
      forall j, k {:trigger Overlap(l[j], l[k])} | 0 <= j < |l| && 0 <= k < |l| && j != k ensures !Overlap(l[j], l[k]) {
        assert 0 < j && 0 < k ==> !Overlap(rs[j - 1], rs[k - 1]);
      }
      forall x ensures Covered(l, x) <==> Covered(rs, x) || In(r, x) {
        PushCovers(rs, r, x);
      }
    }
  }

  lemma PushCovers(rs: seq<Region>, r: Region, x: int)
    ensures Covered([r] + rs, x) <==> Covered(rs, x) || In(r, x)
  {
    var l := [r] + rs;
    if Covered(rs, x) {
      var k :| 0 <= k < |rs| && In(rs[k], x);
      assert In(l[k + 1], x);
    }
    if In(r, x) { assert In(l[0], x); }
    if Covered(l, x) {
      var k :| 0 <= k < |l| && In(l[k], x);
      assert 0 < k ==> In(rs[k - 1], x);
    }
  }

  lemma NoOverlap(rs: seq<Region>, r: Region, j: nat)
    requires j < |rs| && forall x :: Covered(rs, x) ==> !In(r, x)
    ensures !Overlap(r, rs[j]) && !Overlap(rs[j], r)
  {
    if Overlap(r, rs[j]) {
      var x := if r.addr < rs[j].addr then rs[j].addr else r.addr;
      assert In(rs[j], x) && In(r, x);
      assert Covered(rs, x);
    }
  }

  /**
   Every step keeps free, held and lost ranges disjoint and above 1 MB, and the bytes of the
   three together the same, as a set and in number; a fixed address has to be below 4 GB.
   */
  lemma StepConserves(p: Phys, r: Request)
    requires PhysInv(p) && Allowed(p, r) && IsLow(r)
    ensures var q := PhysStep(p, r);
      && PhysInv(q) && AllBytes(q) == AllBytes(p)
      && forall x :: AnyCovered(q, x) <==> AnyCovered(p, x)
  {
    match r
    case AllocRequest(start, size, alignment) => AllocConserves(p, start, size, alignment);
    case FreeRequest(k) => FreeConserves(p, k);
  }

  lemma AllocConserves(p: Phys, start: nat, size: nat, alignment: nat)
    requires PhysInv(p) && ValidAlignment(alignment) && start < 0x1_0000_0000
    ensures var q := PhysStep(p, AllocRequest(start, size, alignment));
      && PhysInv(q) && AllBytes(q) == AllBytes(p)
      && forall x :: AnyCovered(q, x) <==> AnyCovered(p, x)
  {
    var (free, a) := Alloc(p.free, start, size, alignment, true);
    if a != 0 {
      var i := FirstFitting(p.free, start, size, alignment);
      NotCut(p.free[i], start, alignment);
      var r := Region(a, Rounded(size));
      CarveMeets(p.free, i, a, r.size);
      forall x | In(r, x) ensures Covered(p.free, x) { assert In(p.free[i], x); }
      PushMeets(p.held, r);
    } else {
      AllocSucceedsIff(p.free, start, size, alignment, true);
    }
  }

  lemma NotCut(r: Region, start: nat, alignment: nat)
    requires start < 0x1_0000_0000
    ensures StartIn(r, start, alignment) % 0x1_0000_0000 == StartIn(r, start, alignment)
  {
  }

  /** No region can hold the range. */
  predicate NothingFits(rs: seq<Region>, start: nat, size: nat, alignment: nat) {
    size == 0 || FirstFitting(rs, start, size, alignment) == |rs|
  }

  /**
   A client that is given a cut address holds another range than the one that was taken: the
   bytes are conserved if and only if the address is below 4 GB or nothing fits.
   */
  lemma AllocConservesIff(p: Phys, start: nat, size: nat, alignment: nat)
    requires PhysInv(p) && ValidAlignment(alignment)
    ensures (forall x :: AnyCovered(PhysStep(p, AllocRequest(start, size, alignment)), x) <==> AnyCovered(p, x))
       <==> start < 0x1_0000_0000 || NothingFits(p.free, start, size, alignment)
  {
    if start < 0x1_0000_0000 {
      AllocConserves(p, start, size, alignment);
    } else if !NothingFits(p.free, start, size, alignment) {
      var q, n := PhysStep(p, AllocRequest(start, size, alignment)), Rounded(size);
      var i := FirstFitting(p.free, start, size, alignment);
      CarveMeets(p.free, i, start, n);
      var a, x := start % 0x1_0000_0000, start + n - 1;
      assert In(p.free[i], x);
      hide Alloc, Disjoint, Total, Above1MB, Carve;
      PushIn(p.held, Region(a, n), x);
      assert AnyCovered(p, x) && !AnyCovered(q, x);
    }
  }

  lemma PushIn(rs: seq<Region>, r: Region, x: int)
    requires !Covered(rs, x) && !In(r, x)
    ensures !Covered(Push(rs, r), x)
  {
    PushCovers(rs, r, x);
  }

  lemma FreeConserves(p: Phys, k: nat)
    requires PhysInv(p) && k < |p.held|
    ensures var q := PhysStep(p, FreeRequest(k));
      && PhysInv(q) && AllBytes(q) == AllBytes(p)
      && forall x :: AnyCovered(q, x) <==> AnyCovered(p, x)
  {
    hide Covered, Disjoint, Above1MB, Total, Insert, Push, NoCommonByte;
    var (h, n) := (p.held[k], p.asked[k]);
    var r, tail := Region(h.addr, n), Region(h.addr + n, h.size - n);
    RegionIsThere(p.held, k);
    HeldIsNotFree(p, h, tail);
    DropMeets(p.held, k);
    assert Add(p.free, h.addr, n, true) == Insert(p.free, r, true);
    JoinFree(p.free, r);
    PushMeets(p.lost, tail);
    var q := PhysStep(p, FreeRequest(k));
    BytesMove(p, q, h, r, tail);
  }

  lemma HeldIsNotFree(p: Phys, h: Region, tail: Region)
    requires NoCommonByte(p.free, p.held) && NoCommonByte(p.held, p.lost)
    requires (forall x :: In(h, x) ==> Covered(p.held, x)) && h.addr <= tail.addr && tail.End() == h.End()
    ensures forall x :: Covered(p.free, x) ==> !In(h, x)
    ensures forall x :: Covered(p.lost, x) ==> !In(tail, x)
  {
    hide Covered;
    forall x | Covered(p.lost, x) ensures !In(tail, x) {
      assert In(tail, x) ==> In(h, x);
    }
  }

  /** The bytes of h leave the held ranges; those of r become free and those of tail lost. */
  lemma BytesMove(p: Phys, q: Phys, h: Region, r: Region, tail: Region)
    requires NoCommonByte(p.free, p.held) && NoCommonByte(p.free, p.lost) && NoCommonByte(p.held, p.lost)
    requires forall x :: In(h, x) ==> Covered(p.held, x)
    requires r.addr == h.addr && r.End() == tail.addr && tail.End() == h.End()
    requires forall x :: Covered(q.free, x) <==> Covered(p.free, x) || In(r, x)
    requires forall x :: Covered(q.held, x) <==> Covered(p.held, x) && !In(h, x)
    requires forall x :: Covered(q.lost, x) <==> Covered(p.lost, x) || In(tail, x)
    ensures NoCommonByte(q.free, q.held) && NoCommonByte(q.free, q.lost) && NoCommonByte(q.held, q.lost)
    ensures forall x :: AnyCovered(q, x) <==> AnyCovered(p, x)
  {
    hide Covered;
    assert forall x :: In(h, x) <==> In(r, x) || In(tail, x);
  }

  lemma JoinFree(free: seq<Region>, r: Region)
    requires Disjoint(free) && Above1MB(free) && ONE_MB <= r.addr
    requires forall x :: Covered(free, x) ==> !In(r, x)
    ensures var free' := Insert(free, r, true).0;
      && Disjoint(free') && Above1MB(free') && Total(free') == Total(free) + r.size
      && forall x :: Covered(free', x) <==> Covered(free, x) || In(r, x)
  {
    forall j | 0 <= j < |free| ensures !Overlap(free[j], r) {
      NoOverlap(free, r, j);
    }
    InsertMeets(free, r);
    forall x ensures Covered(Insert(free, r, true).0, x) <==> Covered(free, x) || In(r, x) {
      InsertCovers(free, r, true, x);
    }
  }

  /** q can be reached from p by the given requests. */
  predicate PhysReaches(p: Phys, rs: seq<Request>, q: Phys)
    decreases |rs|
  {
    if rs == [] then p == q
    else Sized(p) && Allowed(p, rs[0]) && PhysReaches(PhysStep(p, rs[0]), rs[1..], q)
  }

  /** Conservation over every run of PhysAlloc and PhysFree, at addresses below 4 GB, from a disjoint region list. */
  lemma {:induction false} EveryRunConserves(p: Phys, rs: seq<Request>, q: Phys)
    requires PhysInv(p) && PhysReaches(p, rs, q) && forall k :: 0 <= k < |rs| ==> IsLow(rs[k])
    ensures PhysInv(q) && AllBytes(q) == AllBytes(p)
    ensures forall x :: AnyCovered(q, x) <==> AnyCovered(p, x)
    decreases |rs|
  {
    if rs != [] {
      StepConserves(p, rs[0]);
      EveryRunConserves(PhysStep(p, rs[0]), rs[1..], q);
    }
  }

  /** Only sizes that are no multiple of 4 lose bytes: with none asked for, nothing is lost. */
  lemma {:induction false} MultiplesOf4LoseNothing(p: Phys, rs: seq<Request>, q: Phys)
    requires PhysReaches(p, rs, q)
    requires forall k :: 0 <= k < |p.asked| ==> p.asked[k] % 4 == 0
    requires forall k :: 0 <= k < |rs| && rs[k].AllocRequest? ==> rs[k].size % 4 == 0
    ensures q.lost == p.lost
    decreases |rs|
  {
    if rs != [] {
      StepLosesNothing(p, rs[0]);
      MultiplesOf4LoseNothing(PhysStep(p, rs[0]), rs[1..], q);
    }
  }

  lemma StepLosesNothing(p: Phys, r: Request)
    requires Sized(p) && Allowed(p, r)
    requires forall k :: 0 <= k < |p.asked| ==> p.asked[k] % 4 == 0
    requires r.AllocRequest? ==> r.size % 4 == 0
    ensures var q := PhysStep(p, r);
      q.lost == p.lost && forall k :: 0 <= k < |q.asked| ==> q.asked[k] % 4 == 0
  {
    hide Covered, Disjoint, NoCommonByte, Alloc, Add;
  }

  /** The range [a, a + n) is gone from the free set, and nothing else. */
  ghost predicate Taken(rs: seq<Region>, rs': seq<Region>, a: nat, n: nat) {
    && Disjoint(rs') && Above1MB(rs') && Total(rs') + n == Total(rs)
    && forall x :: Covered(rs', x) <==> Covered(rs, x) && !(a <= x < a + n)
  }

  /** What PhysAlloc takes, whatever it answers; all of it was free. */
  lemma AllocTakes(rs: seq<Region>, start: nat, size: nat, alignment: nat)
    requires Disjoint(rs) && Above1MB(rs) && !NothingFits(rs, start, size, alignment)
    ensures var (rs', a) := Alloc(rs, start, size, alignment, true);
      var i := FirstFitting(rs, start, size, alignment);
      var s := StartIn(rs[i], start, alignment);
      && Taken(rs, rs', s, Rounded(size)) && ONE_MB <= s && (start != 0 ==> s == start)
      && rs[i].addr <= s && s + Rounded(size) <= rs[i].End() && a == s % 0x1_0000_0000
  {
    var i := FirstFitting(rs, start, size, alignment);
    CarveMeets(rs, i, StartIn(rs[i], start, alignment), Rounded(size));
  }

  /** With an address below 4 GB it answers where the range begins. */
  lemma AllocTakesThere(rs: seq<Region>, start: nat, size: nat, alignment: nat)
    requires Disjoint(rs) && Above1MB(rs) && start < 0x1_0000_0000 && Alloc(rs, start, size, alignment, true).1 != 0
    ensures var (rs', a) := Alloc(rs, start, size, alignment, true);
      && Taken(rs, rs', a, Rounded(size)) && 0 < size && ONE_MB <= a && (start != 0 ==> a == start)
      && exists i :: 0 <= i < |rs| && rs[i].addr <= a && a + Rounded(size) <= rs[i].End()
  {
    hide Disjoint, Above1MB, Taken, Carve;
    AllocTakes(rs, start, size, alignment);
    NotCut(rs[FirstFitting(rs, start, size, alignment)], start, alignment);
  }

  /** Giving back what was allocated leaves out just the bytes that rounding added. */
  lemma FreeAfterAlloc(rs: seq<Region>, start: nat, size: nat, alignment: nat)
    requires Disjoint(rs) && Above1MB(rs) && start < 0x1_0000_0000 && Alloc(rs, start, size, alignment, true).1 != 0
    ensures var (rs', a) := Alloc(rs, start, size, alignment, true);
      Taken(rs, Add(rs', a, size, true).0, a + size, Rounded(size) - size)
  {
    AllocTakesThere(rs, start, size, alignment);
    var (rs', a) := Alloc(rs, start, size, alignment, true);
    var i :| 0 <= i < |rs| && rs[i].addr <= a && a + Rounded(size) <= rs[i].End();
    hide Alloc, Total, Disjoint, Insert;
    forall x | In(Region(a, size), x) ensures Covered(rs, x) {
      assert In(rs[i], x);
    }
    JoinFree(rs', Region(a, size));
  }

  // ---------------------------------------------------------------- free ranges in one piece

  /** The bytes [lo, hi) are in a single region, so that one allocation can have them. */
  ghost predicate InOne(rs: seq<Region>, lo: nat, hi: nat) {
    exists k :: 0 <= k < |rs| && rs[k].addr <= lo && hi <= rs[k].End()
  }

  /**
   Adding a range breaks nothing up, and the range itself, as far as it lies above 1 MB, is in one
   piece; so are it and the first region that it overlaps or meets end to end.
   */
  lemma AddJoins(rs: seq<Region>, start: nat, length: nat)
    requires ONE_MB < start + length
    ensures var rs' := Add(rs, start, length, true).0; var from := if start < 0x10_0000 then 0x10_0000 else start;
      && (forall lo: nat, hi: nat {:trigger InOne(rs, lo, hi)} :: InOne(rs, lo, hi) ==> InOne(rs', lo, hi))
      && InOne(rs', from, start + length)
      && (forall i :: 0 <= i < |rs| && rs[i].addr <= start + length && from <= rs[i].End()
                      && (forall j :: 0 <= j < i ==> start + length < rs[j].addr || rs[j].End() < from) ==>
            InOne(rs', if rs[i].addr < from then rs[i].addr else from,
                  if rs[i].End() < start + length then start + length else rs[i].End()))
  {
    var rs', r := Add(rs, start, length, true).0, Clamp(start, length);
    InsertJoins(rs, r);
    forall i | 0 <= i < |rs| && Touches(rs[i], r) && forall j :: 0 <= j < i ==> !Touches(rs[j], r)
      ensures FirstTouching(rs, r) == i {
    }
  }

  lemma InsertJoins(rs: seq<Region>, r: Region)
    ensures var rs' := Insert(rs, r, true).0; var i := FirstTouching(rs, r);
      && (forall lo: nat, hi: nat {:trigger InOne(rs, lo, hi)} :: InOne(rs, lo, hi) ==> InOne(rs', lo, hi))
      && InOne(rs', r.addr, r.End())
      && (i < |rs| ==> InOne(rs', Hull(rs[i], r).addr, Hull(rs[i], r).End()))
  {
    hide Touches;
    var rs', i := Insert(rs, r, true).0, FirstTouching(rs, r);
    var at := if i < |rs| then i else 0;
    assert rs'[at].addr <= r.addr && r.End() <= rs'[at].End();
    forall lo: nat, hi: nat | InOne(rs, lo, hi) ensures InOne(rs', lo, hi) {
      var k :| 0 <= k < |rs| && rs[k].addr <= lo && hi <= rs[k].End();
      var m := if i < |rs| then k else k + 1;
      assert rs'[m].addr <= rs[k].addr && rs[k].End() <= rs'[m].End();
    }
  }

  /** PhysAlloc breaks nothing up but the region that it takes from, and that only where it takes. */
  lemma AllocLeavesWhole(rs: seq<Region>, start: nat, size: nat, alignment: nat, lo: nat, hi: nat)
    requires Disjoint(rs) && Above1MB(rs) && start < 0x1_0000_0000 && Alloc(rs, start, size, alignment, true).1 != 0
    requires lo < hi && InOne(rs, lo, hi)
    ensures var (rs', a) := Alloc(rs, start, size, alignment, true);
      hi <= a || a + Rounded(size) <= lo ==> InOne(rs', lo, hi)
  {
    hide Disjoint, Rounded, MaskUp, Effective, Add, InOne;
    var i := FirstFitting(rs, start, size, alignment);
    NotCut(rs[i], start, alignment);
    var s, n := StartIn(rs[i], start, alignment), Rounded(size);
    if hi <= s || s + n <= lo {
      CarveLeavesWhole(rs, i, s, n, lo, hi);
    }
  }

  lemma CarveLeavesWhole(rs: seq<Region>, i: nat, s: nat, n: nat, lo: nat, hi: nat)
    requires Above1MB(rs) && i < |rs| && rs[i].addr <= s && s + n <= rs[i].End()
    requires lo < hi && InOne(rs, lo, hi) && (hi <= s || s + n <= lo)
    ensures InOne(Carve(rs, i, s, n, true), lo, hi)
  {
    hide Add, Above1MB;
    var k :| 0 <= k < |rs| && rs[k].addr <= lo && hi <= rs[k].End();
    var before, after := s - rs[i].addr, rs[i].End() - (s + n);
    var t := Carve(rs, i, s, n, true);
    if before != 0 && after != 0 {
      TailIsAbove(rs, i, s + n);
      CutLeavesWhole(rs[i := Region(rs[i].addr, before)], s + n, after, k, i, lo, hi, rs);
    } else if before != 0 || after != 0 {
      assert t[k].addr <= lo && hi <= t[k].End();
    } else {
      assert t[if k < i then k else k - 1] == rs[k];
    }
  }

  lemma CutLeavesWhole(m: seq<Region>, tail: nat, after: nat, k: nat, i: nat, lo: nat, hi: nat, rs: seq<Region>)
    requires k < |rs| && i < |rs| && ONE_MB <= tail && 0 < after && rs[k].addr <= lo && hi <= rs[k].End()
    requires rs[i].addr < tail && rs[i].End() == tail + after && |m| == |rs| && (k != i ==> m[k] == rs[k])
    requires m[i].addr == rs[i].addr && (hi <= m[i].End() || tail <= lo || k != i)
    ensures InOne(Add(m, tail, after, true).0, lo, hi)
  {
    hide Add;
    AddJoins(m, tail, after);
    if k != i || hi <= m[i].End() {
      assert m[k].addr <= lo && hi <= m[k].End();
      assert InOne(m, lo, hi);
    } else {
      Narrower(Add(m, tail, after, true).0, tail, tail + after, lo, hi);
    }
  }

  lemma TailIsAbove(rs: seq<Region>, i: nat, from: nat)
    requires Above1MB(rs) && i < |rs| && rs[i].addr <= from
    ensures ONE_MB <= from
  {
  }

  lemma Narrower(rs: seq<Region>, from: nat, end: nat, lo: nat, hi: nat)
    requires InOne(rs, from, end) && from <= lo && hi <= end
    ensures InOne(rs, lo, hi)
  {
  }

  /** Every free byte has an address in RAM of this length. */
  ghost predicate Addressable(rs: seq<Region>, length: nat) {
    forall x :: Covered(rs, x) ==> x < length
  }

  /** A range that PhysAlloc finds lies in RAM and was free. */
  lemma AllocIsFree(rs: seq<Region>, start: nat, size: nat, alignment: nat, length: nat)
    requires ValidAlignment(alignment) && Disjoint(rs) && Above1MB(rs) && Addressable(rs, length)
    requires start < 0x1_0000_0000
    ensures var (rs', a) := Alloc(rs, start, size, alignment, true);
      && (a == 0 ==> rs' == rs)
      && (a != 0 ==>
        && Taken(rs, rs', a, Rounded(size)) && Addressable(rs', length) && a + Rounded(size) <= length
        && (start != 0 ==> a == start)
        && forall x :: a <= x < a + Rounded(size) ==> Covered(rs, x))
  {
    AllocSucceedsIff(rs, start, size, alignment, true);
    if Alloc(rs, start, size, alignment, true).1 != 0 {
      AllocTakesThere(rs, start, size, alignment);
      var (rs', a) := Alloc(rs, start, size, alignment, true);
      var i :| 0 <= i < |rs| && rs[i].addr <= a && a + Rounded(size) <= rs[i].End();
      forall x | a <= x < a + Rounded(size) ensures Covered(rs, x) {
        assert In(rs[i], x);
      }
      assert Covered(rs, a + Rounded(size) - 1);
    }
  }

  /** A cut leaves a tail that no other region meets, so that it needs a list node of its own. */
  predicate TailStandsAlone(rs: seq<Region>, i: nat, s: nat, tail: Region)
    requires i < |rs|
  {
    rs[i].addr < s && forall j :: 0 <= j < |rs| && j != i ==> !Touches(rs[j], tail)
  }

  /**
   PhysAlloc ignores that there may be no list node for the tail: it still takes the same range and
   gives the same answer, but the tail is then lost, and nothing else.
   */
  lemma WithoutNodeTailIsLost(rs: seq<Region>, start: nat, size: nat, alignment: nat)
    requires Disjoint(rs) && Above1MB(rs) && !NothingFits(rs, start, size, alignment)
    ensures var (rs', a) := Alloc(rs, start, size, alignment, false);
      var i := FirstFitting(rs, start, size, alignment);
      var s := StartIn(rs[i], start, alignment);
      var end := s + Rounded(size);
      && a == Alloc(rs, start, size, alignment, true).1 && end <= rs[i].End()
      && var tail := Region(end, rs[i].End() - end);
        forall x :: Covered(rs', x) <==>
          Covered(rs, x) && !(s <= x < end) && !(TailStandsAlone(rs, i, s, tail) && In(tail, x))
  {
    hide Covered, Disjoint, Above1MB, Carve, TailStandsAlone, Total;
    var i, n := FirstFitting(rs, start, size, alignment), Rounded(size);
    CutWithoutNode(rs, i, StartIn(rs[i], start, alignment), n);
  }

  lemma CutWithoutNode(rs: seq<Region>, i: nat, s: nat, n: nat)
    requires Disjoint(rs) && Above1MB(rs) && i < |rs| && rs[i].addr <= s && s + n <= rs[i].End() && 0 < n
    ensures var tail := Region(s + n, rs[i].End() - (s + n));
      forall x :: Covered(Carve(rs, i, s, n, false), x) <==>
        Covered(rs, x) && !(s <= x < s + n) && !(TailStandsAlone(rs, i, s, tail) && In(tail, x))
  {
    hide Disjoint, Covered, Above1MB, Insert;
    RegionIsThere(rs, i);
    var before, after := s - rs[i].addr, rs[i].End() - (s + n);
    var left, tail := Region(rs[i].addr, before), Region(s + n, after);
    if before != 0 && after != 0 {
      var rs1 := rs[i := left];
      ShrinkMeets(rs, i, left);
      JoinsIff(rs, i, left, tail);
      forall x ensures Covered(Insert(rs1, tail, false).0, x) <==>
            Covered(rs1, x) || (Insert(rs1, tail, false).1 && In(tail, x)) {
        InsertCovers(rs1, tail, false, x);
      }
    } else if before != 0 {
      ShrinkMeets(rs, i, left);
    } else if after != 0 {
      ShrinkMeets(rs, i, tail);
    } else {
      DropMeets(rs, i);
    }
  }

  lemma JoinsIff(rs: seq<Region>, i: nat, left: Region, tail: Region)
    requires i < |rs| && left.End() < tail.addr
    ensures Insert(rs[i := left], tail, false).1 <==> !forall j :: 0 <= j < |rs| && j != i ==> !Touches(rs[j], tail)
  {
    var rs1 := rs[i := left];
    var k := FirstTouching(rs1, tail);
    assert forall j :: 0 <= j < |rs| && j != i ==> rs1[j] == rs[j];
  }

  // ---------------------------------------------------------------- the code

  class PhysMemory {
    var regions: seq<Region>

    constructor ()
      ensures regions == []
    {
      regions := [];
    }

    method AddToPhysList(start: nat, length: nat, node: bool) returns (ok: bool)
      modifies this
      ensures (regions, ok) == Add(old(regions), start, length, node)
    {
      var s, n := start, length;
      if s + n <= ONE_MB {
        return true;
      } else if s < ONE_MB {
        n := s + n - ONE_MB;
        s := ONE_MB;
      }
      ghost var r := Region(s, n);
      var i := 0;
      while i < |regions|
        invariant i <= |regions| && regions == old(regions)
        invariant forall j :: 0 <= j < i ==> !Touches(regions[j], r)
      {
        var cur := regions[i];
        if cur.addr <= s <= cur.addr + cur.size {
          regions := regions[i := Region(cur.addr, if cur.size < s + n - cur.addr then s + n - cur.addr else cur.size)];
          break;
        }
        if cur.addr <= s + n <= cur.addr + cur.size {
          var lo := if s < cur.addr then s else cur.addr;
          regions := regions[i := Region(lo, cur.addr + cur.size - lo)];
          break;
        }
        if s < cur.addr && s + n > cur.addr + cur.size {
          regions := regions[i := Region(s, n)];
          break;
        }
        i := i + 1;
      }
      FirstTouchingIs(old(regions), r, i);
      if i == |regions| {
        if !node {
          return false;
        }
        regions := [Region(s, n)] + regions;
      }
      return true;
    }

    method PhysAlloc(start: nat, size: nat, alignment: nat, node: bool) returns (address: nat)
      requires ValidAlignment(alignment)
      modifies this
      ensures (regions, address) == Alloc(old(regions), start, size, alignment, node)
    {
      var al := if alignment == 0 then 1 else alignment;
      var n := Rounded(size);
      if n == 0 {
        return 0;
      }
      var i := 0;
      while i < |regions|
        invariant i <= |regions| && regions == old(regions)
        invariant forall j :: 0 <= j < i ==> !Fits(regions[j], start, size, alignment)
      {
        var cur := regions[i];
        var s := if start != 0 then start else MaskUp(cur.addr, al);
        if s >= cur.addr && s + n <= cur.addr + cur.size {
          FirstFittingIs(regions, start, size, alignment, i);
          TakeFrom(i, s, n, node);
          return s % 0x1_0000_0000;
        }
        i := i + 1;
      }
      FirstFittingIs(regions, start, size, alignment, i);
      return 0;
    }

    /** PhysAlloc's adjustment of region i to remove the allocated space. */
    method TakeFrom(i: nat, s: nat, n: nat, node: bool)
      requires i < |regions| && regions[i].addr <= s && s + n <= regions[i].End()
      modifies this
      ensures regions == Carve(old(regions), i, s, n, node)
    {
      var cur := regions[i];
      var before := s - cur.addr;
      var after := (cur.addr + cur.size) - (s + n);
      if before != 0 {
        regions := regions[i := Region(cur.addr, before)];
        if after != 0 {
          var _ := AddToPhysList(s + n, after, node);
        }
      } else if after != 0 {
        regions := regions[i := Region(s + n, after)];
      } else {
        regions := regions[..i] + regions[i + 1..];
      }
    }

    method PhysFree(address: u32, size: nat, node: bool)
      modifies this
      ensures regions == Add(old(regions), address, size, node).0
    {
      var _ := AddToPhysList(address, size, node);
    }
  }

  lemma FirstTouchingIs(rs: seq<Region>, r: Region, i: nat)
    requires i <= |rs| && (i < |rs| ==> Touches(rs[i], r)) && forall j :: 0 <= j < i ==> !Touches(rs[j], r)
    ensures FirstTouching(rs, r) == i
  {
  }

  lemma FirstFittingIs(rs: seq<Region>, start: nat, size: nat, alignment: nat, i: nat)
    requires i <= |rs| && (i < |rs| ==> Fits(rs[i], start, size, alignment))
    requires forall j :: 0 <= j < i ==> !Fits(rs[j], start, size, alignment)
    ensures FirstFitting(rs, start, size, alignment) == i
  {
  }
}

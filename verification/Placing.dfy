/**
 Ranges of physical memory that a loader holds: what was free when it began is free, held by
 it, or one of the few bytes that rounding added to what it gave back.
 */
module Placing {
  import opened Bytes
  import opened Common
  import opened PhysMem

  /** The addresses that the loaders use are below 4 GB; memory reaches far enough for any range that starts there. */
  const ADDRESS_SPACE: nat := 0x2_0000_0000
  const LAST_BYTE: nat := 0xFFFF_FFFF

  /** What PhysAlloc takes for these ranges. */
  function Rounds(held: seq<Region>): (r: seq<Region>)
    ensures |r| == |held|
  {
    seq(|held|, k requires 0 <= k < |held| => Region(held[k].addr, Rounded(held[k].size)))
  }

  function Sizes(held: seq<Region>): (r: seq<nat>)
    ensures |r| == |held|
  {
    seq(|held|, k requires 0 <= k < |held| => held[k].size)
  }

  /** Each lost piece is what rounding added to one range. */
  predicate Scraps(lost: seq<Region>) {
    forall k :: 0 <= k < |lost| ==> 0 < lost[k].size < 4
  }

  lemma {:induction false} ScrapsAreFew(lost: seq<Region>)
    requires Scraps(lost)
    ensures Total(lost) <= 3 * |lost|
  {
    if lost != [] {
      ScrapsAreFew(lost[1..]);
    }
  }

  /** p is physical memory, free as `rs` at first, with these ranges held (the latest first). */
  ghost predicate Holding(p: Phys, rs: seq<Region>, held: seq<Region>) {
    && PhysInv(p) && p.held == Rounds(held) && p.asked == Sizes(held) && Scraps(p.lost)
    && AllBytes(p) == Total(rs) && forall x :: AnyCovered(p, x) <==> Covered(rs, x)
  }

  lemma HoldingNothing(rs: seq<Region>)
    requires Disjoint(rs) && Above1MB(rs)
    ensures Holding(Phys(rs, [], [], []), rs, [])
  {
  }

  lemma SizedOf(p: Phys)
    requires PhysInv(p)
    ensures Sized(p)
  {
  }

  lemma TakesSome(p: Phys, start: nat, size: nat, alignment: nat)
    requires PhysInv(p) && ValidAlignment(alignment) && start < 0x1_0000_0000
    requires Alloc(p.free, start, size, alignment, true).1 != 0
    ensures 0 < Rounded(size)
  {
    AllocTakesThere(p.free, start, size, alignment);
  }

  /** After a successful PhysAlloc. */
  function Taking(p: Phys, start: nat, size: nat, alignment: nat): Phys {
    var (free, a) := Alloc(p.free, start, size, alignment, true);
    Phys(free, [Region(a, Rounded(size))] + p.held, [size] + p.asked, p.lost)
  }

  lemma HoldOne(p: Phys, rs: seq<Region>, held: seq<Region>, start: nat, size: nat, alignment: nat)
    requires Holding(p, rs, held) && ValidAlignment(alignment) && start < 0x1_0000_0000
    requires Alloc(p.free, start, size, alignment, true).1 != 0
    ensures var a := Alloc(p.free, start, size, alignment, true).1;
      Holding(Taking(p, start, size, alignment), rs, [Region(a, size)] + held)
  {
    hide Alloc, Covered, Disjoint, Above1MB, NoCommonByte, PhysInv, AnyCovered, Total, AllBytes;
    SizedOf(p);
    StepConserves(p, AllocRequest(start, size, alignment));
    TakesSome(p, start, size, alignment);
    var r := Region(Alloc(p.free, start, size, alignment, true).1, size);
    assert Rounds([r] + held) == [Region(r.addr, Rounded(size))] + Rounds(held);
    assert Sizes([r] + held) == [size] + Sizes(held);
  }

  /** PhysFree of range k. */
  lemma LetGo(p: Phys, rs: seq<Region>, held: seq<Region>, k: nat) returns (q: Phys)
    requires Holding(p, rs, held) && k < |held|
    ensures Holding(q, rs, held[..k] + held[k + 1..]) && q.free == Add(p.free, held[k].addr, held[k].size, true).0
    ensures q.lost == Push(p.lost, Region(held[k].addr + held[k].size, Rounded(held[k].size) - held[k].size))
  {
    hide Alloc, Add, Covered, Disjoint, Above1MB, NoCommonByte, PhysInv, AnyCovered, Total, AllBytes;
    SizedOf(p);
    StepConserves(p, FreeRequest(k));
    q := PhysStep(p, FreeRequest(k));
    var rest := held[..k] + held[k + 1..];
    assert q.held == Rounds(rest) && q.asked == Sizes(rest);
  }

  /** Two held ranges share no byte. */
  lemma HeldApart(p: Phys, rs: seq<Region>, held: seq<Region>, j: nat, k: nat)
    requires Holding(p, rs, held) && j < |held| && k < |held| && j != k
    ensures 0 < held[j].size && ONE_MB <= held[j].addr
    ensures held[j].addr + Rounded(held[j].size) <= held[k].addr || held[k].addr + Rounded(held[k].size) <= held[j].addr
  {
    hide Covered, NoCommonByte, AnyCovered, AllBytes, Total;
    assert !Overlap(p.held[j], p.held[k]);
    assert p.held[j].addr == held[j].addr && p.asked[j] == held[j].size && p.asked[k] == held[k].size;
  }

  // ---------------------------------------------------------------- memory

  /** Only bytes that were free have changed. */
  ghost predicate OnlyFreeChanged(rs: seq<Region>, a: seq<byte>, b: seq<byte>) {
    |a| == |b| && forall x {:trigger b[x]} :: 0 <= x < |a| && !Covered(rs, x) ==> b[x] == a[x]
  }

  ghost predicate Within(rs: seq<Region>, rs0: seq<Region>) {
    forall x :: Covered(rs, x) ==> Covered(rs0, x)
  }

  /** All bytes of [a, a + n) were free. */
  ghost predicate Free(rs: seq<Region>, a: nat, n: nat) {
    forall x :: a <= x < a + n ==> Covered(rs, x)
  }

  lemma NothingChanged(rs: seq<Region>, b: seq<byte>)
    ensures OnlyFreeChanged(rs, b, b) && Within(rs, rs)
  {
  }

  lemma ChangesAdd(rs0: seq<Region>, b0: seq<byte>, b: seq<byte>, b': seq<byte>, a: nat, n: nat)
    requires OnlyFreeChanged(rs0, b0, b) && SameOutside(b, b', a, n) && Free(rs0, a, n)
    ensures OnlyFreeChanged(rs0, b0, b')
  {
    hide Covered;
    forall x {:trigger b'[x]} | 0 <= x < |b0| && !Covered(rs0, x) ensures b'[x] == b0[x] {
      assert b[x] == b0[x];
    }
  }

  /** A write elsewhere leaves a range alone. */
  lemma RangeStays(b: seq<byte>, b': seq<byte>, at: nat, n: nat, from: nat, m: nat)
    requires SameOutside(b, b', at, n) && from + m <= |b| && (from + m <= at || at + n <= from)
    ensures b'[from..from + m] == b[from..from + m]
  {
    var x, y := b'[from..from + m], b[from..from + m];
    forall k | 0 <= k < m ensures x[k] == y[k] {
      assert b'[from + k] == b[from + k];
    }
  }

  lemma StillWithin(rs0: seq<Region>, rs: seq<Region>, rs': seq<Region>, a: nat, n: nat)
    requires Within(rs, rs0) && Taken(rs, rs', a, n)
    ensures Within(rs', rs0) && Within(rs', rs) && Disjoint(rs') && Above1MB(rs')
  {
    hide Covered, Disjoint, Above1MB, Total;
  }

  lemma StillAddressable(rs: seq<Region>, rs': seq<Region>, length: nat)
    requires Addressable(rs, length) && Within(rs', rs)
    ensures Addressable(rs', length)
  {
    hide Covered;
  }
}

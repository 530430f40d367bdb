/**
 The boundary-tag heap of src/stdlib.c as a value: which blocks the headers describe
 and in what order the free list links them.  Addresses are counted in 4-byte words
 (every address the heap handles is a multiple of 4); byte counts appear only where the
 source takes or stores bytes.
 */
module HeapModel {
  import opened Common

  /** sizeof(HEAPBLOCK), in words. */
  const HEADER: nat := 4

  /** A remainder is split off when it holds a header and MIN_BLOCKSIZE bytes. */
  const MIN_SPLIT: nat := 5

  const NULL: nat := 0

  datatype Block = Block(words: nat, free: bool, aligned: bool)

  /**
   `start` is the header address of the first block and `end` the address just past the
   last one: the bytes [HeapStart - 4, HeapStart + HeapSize - 4) of the source.
   `list` is the free list, first element first.
   */
  datatype State = State(start: nat, end: nat, blocks: map<nat, Block>, list: seq<nat>)

  // ---------------------------------------------------------------- the invariant

  /** NEXT(a): where the following header begins. */
  function Next(blocks: map<nat, Block>, a: nat): nat
    requires a in blocks
  {
    a + HEADER + blocks[a].words
  }

  /** The headers tile [start, end) without gap or overlap. */
  ghost predicate Tiles(start: nat, end: nat, blocks: map<nat, Block>) {
    && start <= end
    && (start < end ==> start in blocks)
    && (forall a {:trigger a in blocks} :: a in blocks ==> start <= a < end)
    && (forall a {:trigger Next(blocks, a)} :: a in blocks ==>
          Next(blocks, a) == end || (Next(blocks, a) < end && Next(blocks, a) in blocks))
    && (forall a, b {:trigger Next(blocks, a), b in blocks} ::
          a in blocks && b in blocks && a < b ==> Next(blocks, a) <= b)
  }

  /** Word a + 1 (the Size word) opens a 64 KB window, which is 0x4000 words. */
  predicate Opens(a: nat) { (a + 1) % 0x4000 == 0 }

  /** All words x with a + 1 <= x <= b lie in one 64 KB window. */
  predicate OneWindow(a: nat, b: nat) { (a + 1) / 0x4000 == b / 0x4000 }

  /** BLOCK_ALIGNED marks exactly the window openers, and no block spans two windows. */
  ghost predicate Windows(blocks: map<nat, Block>) {
    && (forall a {:trigger a in blocks} {:trigger blocks[a]} :: a in blocks ==> (blocks[a].aligned <==> Opens(a)))
    && (forall a {:trigger Next(blocks, a)} :: a in blocks ==> OneWindow(a, Next(blocks, a)))
  }

  predicate Distinct(list: seq<nat>) {
    forall i, j :: 0 <= i < j < |list| ==> list[i] != list[j]
  }

  /** The list holds exactly the free blocks, `but` excepted, once each. */
  ghost predicate Lists(list: seq<nat>, blocks: map<nat, Block>, but: nat) {
    && Distinct(list)
    && (forall a {:trigger a in list} :: a in list <==> a in blocks && blocks[a].free && a != but)
  }

  predicate Mergeable(blocks: map<nat, Block>, a: nat) {
    a in blocks && blocks[a].free && !blocks[a].aligned
  }

  /** No free block is followed by a free block that could join it, `but` excepted. */
  ghost predicate Coalesced(blocks: map<nat, Block>, but: nat) {
    forall a {:trigger Next(blocks, a)} ::
      a in blocks && blocks[a].free && a != but && Next(blocks, a) != but ==> !Mergeable(blocks, Next(blocks, a))
  }

  /** Inv, but for block a: it is off the list, and its neighbours may be mergeable with it. */
  ghost predicate InvBut(s: State, a: nat) {
    && 0 < s.start
    && Tiles(s.start, s.end, s.blocks)
    && Windows(s.blocks)
    && Lists(s.list, s.blocks, a)
    && Coalesced(s.blocks, a)
  }

  /** The heap invariant; no block has the address NULL. */
  ghost predicate Inv(s: State) {
    InvBut(s, NULL)
  }

  // ---------------------------------------------------------------- the operations

  /** ALIGN on a 32-bit byte count, as a count of words; the addition wraps. */
  function AlignedWords(nBytes: nat): nat {
    (nBytes + 3) % 0x1_0000_0000 / 4
  }

  /** Index of the first listed block of at least w words; |list| when there is none. */
  function FirstFit(blocks: map<nat, Block>, list: seq<nat>, w: nat): (i: nat)
    requires forall a :: a in list ==> a in blocks
    ensures i <= |list|
    ensures i < |list| ==> blocks[list[i]].words >= w
    ensures forall j :: 0 <= j < i ==> blocks[list[j]].words < w
  {
    if list == [] then 0
    else if blocks[list[0]].words >= w then 0
    else 1 + FirstFit(blocks, list[1..], w)
  }

  function Drop(list: seq<nat>, i: nat): seq<nat>
    requires i < |list|
  {
    list[..i] + list[i + 1..]
  }

  /** Unlink. */
  function Unlinked(s: State, a: nat): State
    requires a in s.list
  {
    s.(list := Drop(s.list, IndexOf(s.list, a)))
  }

  /** Link. */
  function Linked(s: State, a: nat): State {
    s.(list := [a] + s.list)
  }

  /** The blocks after header a has swallowed the block behind it. */
  function Absorb(blocks: map<nat, Block>, a: nat): map<nat, Block>
    requires a in blocks && Next(blocks, a) in blocks
  {
    var n := Next(blocks, a);
    (blocks - {n})[a := blocks[a].(words := blocks[a].words + HEADER + blocks[n].words)]
  }

  function AbsorbNext(s: State, a: nat): State
    requires a in s.blocks && Next(s.blocks, a) in s.blocks && Next(s.blocks, a) in s.list
  {
    Unlinked(s, Next(s.blocks, a)).(blocks := Absorb(s.blocks, a))
  }

  function Mark(blocks: map<nat, Block>, a: nat, free: bool): map<nat, Block>
    requires a in blocks
  {
    blocks[a := blocks[a].(free := free)]
  }

  /** Block a cut into a used block of w words and a free rest. */
  function Split(blocks: map<nat, Block>, a: nat, w: nat): map<nat, Block>
    requires a in blocks && w + MIN_SPLIT <= blocks[a].words
  {
    blocks[a := Block(w, false, blocks[a].aligned)]
          [a + HEADER + w := Block(blocks[a].words - w - HEADER, true, false)]
  }

  /** Uses the unlisted block a for w words; a remainder worth splitting becomes a free block. */
  function Occupy(s: State, a: nat, w: nat): (t: State)
    requires a in s.blocks && w <= s.blocks[a].words
    ensures t.start == s.start && t.end == s.end
  {
    var b := s.blocks[a];
    if b.words - w >= MIN_SPLIT then
      Linked(s.(blocks := Split(s.blocks, a, w)), a + HEADER + w)
    else
      s.(blocks := Mark(s.blocks, a, false))
  }

  function Malloc(s: State, nBytes: nat): (State, nat)
    requires forall a :: a in s.list ==> a in s.blocks
  {
    var w := AlignedWords(nBytes);
    var i := FirstFit(s.blocks, s.list, w);
    if i == |s.list| then (s, NULL)
    else (Occupy(Unlinked(s, s.list[i]), s.list[i], w), s.list[i] + HEADER)
  }

  /** The free block in front of header a that a may join. */
  ghost predicate LeftPartner(s: State, a: nat, p: nat)
    requires a in s.blocks
  {
    !s.blocks[a].aligned && p in s.list && p in s.blocks && Next(s.blocks, p) == a
  }

  ghost function MergePrev(s: State, a: nat): State
    requires a in s.blocks
  {
    if p :| LeftPartner(s, a, p) then Linked(Unlinked(s, p).(blocks := Absorb(s.blocks, p)), p)
    else Linked(s, a)
  }

  function Marked(s: State, a: nat): State
    requires a in s.blocks
  {
    s.(blocks := Mark(s.blocks, a, true))
  }

  /** The effect of free on a block in use, when the free list is not empty. */
  ghost function Release(s: State, a: nat): State
    requires a in s.blocks
    requires Mergeable(s.blocks, Next(s.blocks, a)) ==> Next(s.blocks, a) in s.list
  {
    var marked := Marked(s, a);
    MergePrev(if Mergeable(marked.blocks, Next(marked.blocks, a)) then AbsorbNext(marked, a) else marked, a)
  }

  /** What a caller may hand to free or realloc: NULL or the user area of some block. */
  predicate UserArea(s: State, p: nat) {
    p == NULL || (HEADER <= p && p - HEADER in s.blocks)
  }

  ghost function Free(s: State, p: nat): State
    requires Inv(s) && UserArea(s, p)
  {
    if s.list == [] || p == NULL || s.blocks[p - HEADER].free then s else Release(s, p - HEADER)
  }

  // ---------------------------------------------------------------- the invariant is kept

  lemma UnlinkedIsTheRest(s: State, a: nat)
    requires Distinct(s.list) && a in s.list
    ensures Distinct(Unlinked(s, a).list)
    ensures forall x :: x in Unlinked(s, a).list <==> x in s.list && x != a
  {
    var i := IndexOf(s.list, a);
    var l := Unlinked(s, a).list;
    forall x | x in s.list && x != a ensures x in l {
      var j :| 0 <= j < |s.list| && s.list[j] == x;
      assert l[if j < i then j else j - 1] == x;
    }
  }

  lemma UnlinkedKeepsInvBut(s: State, a: nat)
    requires Inv(s) && a in s.list
    ensures InvBut(Unlinked(s, a), a)
  {
    UnlinkedIsTheRest(s, a);
  }

  lemma CutInWindow(a: nat, b: nat, c: nat)
    requires a < b <= c && OneWindow(a, c)
    ensures !Opens(b) || b == c
    ensures OneWindow(a, b)
    ensures b < c ==> !Opens(b) && OneWindow(b, c)
  {
  }

  lemma JoinInWindow(a: nat, b: nat, c: nat)
    requires a < b < c && OneWindow(a, b) && OneWindow(b, c) && !Opens(b)
    ensures OneWindow(a, c)
  {
  }

  lemma SplitKeepsTiles(start: nat, end: nat, blocks: map<nat, Block>, a: nat, w: nat)
    requires Tiles(start, end, blocks) && a in blocks && w + MIN_SPLIT <= blocks[a].words
    ensures a + HEADER + w !in blocks
    ensures Tiles(start, end, Split(blocks, a, w))
    ensures Next(Split(blocks, a, w), a) == a + HEADER + w
    ensures Next(Split(blocks, a, w), a + HEADER + w) == Next(blocks, a)
    ensures forall x {:trigger Next(Split(blocks, a, w), x)} :: x in blocks && x != a ==>
              Next(Split(blocks, a, w), x) == Next(blocks, x)
  {
    hide Split, Next;
    SplitNexts(blocks, a, w);
    if a + HEADER + w in blocks {
      assert false;
    }
  }

  lemma SplitNexts(blocks: map<nat, Block>, a: nat, w: nat)
    requires a in blocks && w + MIN_SPLIT <= blocks[a].words
    ensures a < a + HEADER + w < Next(blocks, a)
    ensures forall x :: x in Split(blocks, a, w) <==> x in blocks || x == a + HEADER + w
    ensures Next(Split(blocks, a, w), a) == a + HEADER + w
    ensures Next(Split(blocks, a, w), a + HEADER + w) == Next(blocks, a)
    ensures forall x {:trigger Next(Split(blocks, a, w), x)} :: x in blocks && x != a && x != a + HEADER + w ==>
              Next(Split(blocks, a, w), x) == Next(blocks, x)
  {
  }

  lemma SplitKeepsWindows(start: nat, end: nat, blocks: map<nat, Block>, a: nat, w: nat)
    requires Tiles(start, end, blocks) && Windows(blocks)
    requires a in blocks && w + MIN_SPLIT <= blocks[a].words
    ensures Windows(Split(blocks, a, w))
  {
    hide Tiles, Opens, OneWindow;
    var rest, t := a + HEADER + w, Split(blocks, a, w);
    SplitKeepsTiles(start, end, blocks, a, w);
    assert OneWindow(a, Next(blocks, a));
    CutInWindow(a, rest, Next(blocks, a));
    forall x {:trigger Next(t, x)} | x in t ensures OneWindow(x, Next(t, x)) {
      assert x != a && x != rest ==> Next(t, x) == Next(blocks, x);
    }
  }

  lemma MarkKeepsTiles(start: nat, end: nat, blocks: map<nat, Block>, a: nat, free: bool)
    requires Tiles(start, end, blocks) && Windows(blocks) && a in blocks
    ensures forall x {:trigger Next(Mark(blocks, a, free), x)} :: x in blocks ==>
              Next(Mark(blocks, a, free), x) == Next(blocks, x)
    ensures Tiles(start, end, Mark(blocks, a, free))
    ensures Windows(Mark(blocks, a, free))
  {
    var t := Mark(blocks, a, free);
    forall x {:trigger Next(t, x)} | x in t ensures Next(t, x) == Next(blocks, x) {}
  }

  lemma LinkedKeepsDistinct(s: State, a: nat)
    requires Distinct(s.list) && a !in s.list
    ensures Distinct(Linked(s, a).list)
    ensures forall x :: x in Linked(s, a).list <==> x in s.list || x == a
  {
  }

  lemma SplitKeepsCoalesced(start: nat, end: nat, blocks: map<nat, Block>, a: nat, w: nat)
    requires Tiles(start, end, blocks) && Windows(blocks)
    requires a in blocks && w + MIN_SPLIT <= blocks[a].words
    requires Coalesced(blocks, a) && !Mergeable(blocks, Next(blocks, a))
    ensures Coalesced(Split(blocks, a, w), NULL)
  {
    SplitKeepsTiles(start, end, blocks, a, w);
    var t := Split(blocks, a, w);
    var rest := a + HEADER + w;
    assert Next(t, rest) == Next(blocks, a);
    forall x {:trigger Next(t, x)} | x in t && t[x].free && x != NULL && Next(t, x) != NULL
      ensures !Mergeable(t, Next(t, x))
    {
      if x != rest { assert Next(t, x) == Next(blocks, x);
      assert Next(blocks, x) != rest; }
    }
  }

  lemma OccupyRestoresInv(s: State, a: nat, w: nat)
    requires a in s.blocks && InvBut(s, a) && !Mergeable(s.blocks, Next(s.blocks, a)) && w <= s.blocks[a].words
    ensures Inv(Occupy(s, a, w))
  {
    hide Tiles, Windows, Coalesced, Lists, Mergeable, Next;
    if s.blocks[a].words - w >= MIN_SPLIT {
      SplitKeepsTiles(s.start, s.end, s.blocks, a, w);
      SplitKeepsWindows(s.start, s.end, s.blocks, a, w);
      NullIsNoBlock(s, a);
      SplitIsListed(s, a, w);
      SplitKeepsCoalesced(s.start, s.end, s.blocks, a, w);
    } else {
      MarkKeepsTiles(s.start, s.end, s.blocks, a, false);
      UsedIsUnlisted(s, a);
    }
  }

  lemma NullIsNoBlock(s: State, a: nat)
    requires InvBut(s, a)
    ensures NULL !in s.blocks
  {
  }

  lemma ListedAreBlocks(s: State)
    requires Inv(s)
    ensures forall a :: a in s.list ==> a in s.blocks
  {
  }

  lemma SplitIsListed(s: State, a: nat, w: nat)
    requires a in s.blocks && Lists(s.list, s.blocks, a) && w + MIN_SPLIT <= s.blocks[a].words
    requires a + HEADER + w !in s.blocks
    requires NULL !in s.blocks
    ensures Lists([a + HEADER + w] + s.list, Split(s.blocks, a, w), NULL)
  {
    LinkedKeepsDistinct(s, a + HEADER + w);
  }

  lemma UsedIsUnlisted(s: State, a: nat)
    requires a in s.blocks && Tiles(s.start, s.end, s.blocks) && 0 < s.start && Lists(s.list, s.blocks, a)
    requires Coalesced(s.blocks, a)
    ensures Lists(s.list, Mark(s.blocks, a, false), NULL) && Coalesced(Mark(s.blocks, a, false), NULL)
  {
    var t := Mark(s.blocks, a, false);
    forall x {:trigger Next(t, x)} | x in t ensures Next(t, x) == Next(s.blocks, x) {}
  }

  lemma AbsorbKeepsTiles(start: nat, end: nat, blocks: map<nat, Block>, a: nat)
    requires Tiles(start, end, blocks) && a in blocks && Next(blocks, a) in blocks
    ensures Next(Absorb(blocks, a), a) == Next(blocks, Next(blocks, a))
    ensures Tiles(start, end, Absorb(blocks, a))
    ensures forall x {:trigger Next(Absorb(blocks, a), x)} :: x in blocks && x != a && x != Next(blocks, a) ==>
              Next(Absorb(blocks, a), x) == Next(blocks, x)
  {
    hide Absorb, Next;
    AbsorbNexts(blocks, a);
    NextsAreBehind(blocks);
  }

  lemma NextsAreBehind(blocks: map<nat, Block>)
    ensures forall x {:trigger Next(blocks, x)} :: x in blocks ==> x < Next(blocks, x)
  {
  }

  lemma AbsorbNexts(blocks: map<nat, Block>, a: nat)
    requires a in blocks && Next(blocks, a) in blocks
    ensures forall x :: x in Absorb(blocks, a) <==> x in blocks && x != Next(blocks, a)
    ensures Next(Absorb(blocks, a), a) == Next(blocks, Next(blocks, a))
    ensures forall x {:trigger Next(Absorb(blocks, a), x)} :: x in blocks && x != a && x != Next(blocks, a) ==>
              Next(Absorb(blocks, a), x) == Next(blocks, x)
  {
  }

  lemma AbsorbKeepsWindows(start: nat, end: nat, blocks: map<nat, Block>, a: nat)
    requires Tiles(start, end, blocks) && Windows(blocks)
    requires a in blocks && Next(blocks, a) in blocks && !blocks[Next(blocks, a)].aligned
    ensures Windows(Absorb(blocks, a))
  {
    var n := Next(blocks, a);
    AbsorbKeepsTiles(start, end, blocks, a);
    assert OneWindow(a, n) && OneWindow(n, Next(blocks, n));
    JoinInWindow(a, n, Next(blocks, n));
  }

  lemma AbsorbNextKeepsInvBut(s: State, a: nat)
    requires a in s.blocks && InvBut(s, a) && Mergeable(s.blocks, Next(s.blocks, a))
    ensures Next(s.blocks, a) in s.list
    ensures InvBut(AbsorbNext(s, a), a)
    ensures !Mergeable(AbsorbNext(s, a).blocks, Next(AbsorbNext(s, a).blocks, a))
  {
    hide Windows, Tiles;
    UnlinkedIsTheRest(s, Next(s.blocks, a));
    AbsorbKeepsTiles(s.start, s.end, s.blocks, a);
    AbsorbKeepsWindows(s.start, s.end, s.blocks, a);
  }

  lemma MergePrevRestoresInv(s: State, a: nat)
    requires a in s.blocks && InvBut(s, a) && s.blocks[a].free && !Mergeable(s.blocks, Next(s.blocks, a))
    ensures Inv(MergePrev(s, a))
  {
    hide InvBut, Inv, Mergeable, Linked, Unlinked, Absorb;
    forall p | LeftPartner(s, a, p) ensures Inv(Linked(Unlinked(s, p).(blocks := Absorb(s.blocks, p)), p)) {
      JoinedRestoresInv(s, a, p);
    }
    if !exists p: nat :: LeftPartner(s, a, p) {
      AloneRestoresInv(s, a);
    }
  }

  lemma JoinedRestoresInv(s: State, a: nat, p: nat)
    requires a in s.blocks && InvBut(s, a) && s.blocks[a].free && !Mergeable(s.blocks, Next(s.blocks, a))
    requires LeftPartner(s, a, p)
    ensures Inv(Linked(Unlinked(s, p).(blocks := Absorb(s.blocks, p)), p))
  {
    hide Windows;
    UnlinkedIsTheRest(s, p);
    AbsorbKeepsTiles(s.start, s.end, s.blocks, p);
    AbsorbKeepsWindows(s.start, s.end, s.blocks, p);
    LinkedKeepsDistinct(Unlinked(s, p), p);
    var t := Linked(Unlinked(s, p).(blocks := Absorb(s.blocks, p)), p);
    assert Lists(t.list, t.blocks, NULL);
    forall x {:trigger Next(t.blocks, x)} | x in t.blocks && t.blocks[x].free
      ensures !Mergeable(t.blocks, Next(t.blocks, x))
    {
      if x != p {
        assert Next(t.blocks, x) == Next(s.blocks, x);
      }
    }
  }

  lemma AloneRestoresInv(s: State, a: nat)
    requires a in s.blocks && InvBut(s, a) && s.blocks[a].free && !Mergeable(s.blocks, Next(s.blocks, a))
    requires forall p: nat :: !LeftPartner(s, a, p)
    ensures Inv(Linked(s, a))
  {
    hide Windows;
    LinkedKeepsDistinct(s, a);
    forall x {:trigger Next(s.blocks, x)} | x in s.blocks && s.blocks[x].free
      ensures !Mergeable(s.blocks, Next(s.blocks, x))
    {
      assert x != a ==> x in s.list;
      assert !LeftPartner(s, a, x);
    }
  }

  // ---------------------------------------------------------------- what each operation does

  /** The headers of the blocks in use. */
  function Live(s: State): set<nat> {
    set a | a in s.blocks && !s.blocks[a].free
  }

  /** Every block in use, `but` excepted, is the same block afterwards. */
  ghost predicate KeepsLive(s: State, t: State, but: int) {
    forall a {:trigger a in s.blocks} :: a in Live(s) && a != but ==> a in t.blocks && t.blocks[a] == s.blocks[a]
  }

  /**
   malloc keeps the invariant; it fails exactly when no free block is large enough, and
   then changes nothing; otherwise exactly one block changes from free to used.
   */
  lemma MallocMeets(s: State, nBytes: nat)
    requires Inv(s)
    ensures var (t, p) := Malloc(s, nBytes);
      && Inv(t) && t.start == s.start && t.end == s.end
      && KeepsLive(s, t, -1)
      && (p == NULL <==> forall a :: a in s.blocks && s.blocks[a].free ==> s.blocks[a].words < AlignedWords(nBytes))
      && (p == NULL ==> t == s)
      && (p != NULL ==>
            && HEADER < p && p - HEADER in s.blocks && s.blocks[p - HEADER].free
            && Live(t) == Live(s) + {p - HEADER}
            && t.blocks[p - HEADER].words >= AlignedWords(nBytes))
  {
    var w := AlignedWords(nBytes);
    var i := FirstFit(s.blocks, s.list, w);
    if i == |s.list| {
      forall a | a in s.blocks && s.blocks[a].free ensures s.blocks[a].words < w {
        assert a in s.list;
      }
    } else {
      var a := s.list[i];
      assert a in s.list;
      UnlinkedKeepsInvBut(s, a);
      assert !Mergeable(s.blocks, Next(s.blocks, a));
      OccupyRestoresInv(Unlinked(s, a), a, w);
      OccupyLive(Unlinked(s, a), a, w);
    }
  }

  lemma OccupyLive(s: State, a: nat, w: nat)
    requires a in s.blocks && InvBut(s, a) && w <= s.blocks[a].words
    ensures Live(Occupy(s, a, w)) == Live(s) + {a}
    ensures Occupy(s, a, w).blocks[a].words >= w
    ensures KeepsLive(s, Occupy(s, a, w), a)
  {
    if s.blocks[a].words - w >= MIN_SPLIT {
      SplitKeepsTiles(s.start, s.end, s.blocks, a, w);
    }
  }

  lemma AbsorbNextLive(s: State, a: nat)
    requires a in s.blocks && InvBut(s, a) && Mergeable(s.blocks, Next(s.blocks, a)) && Next(s.blocks, a) in s.list
    ensures Live(AbsorbNext(s, a)) == Live(s)
    ensures KeepsLive(s, AbsorbNext(s, a), a)
    ensures AbsorbNext(s, a).blocks[a].free == s.blocks[a].free
  {
    assert Next(s.blocks, a) != a;
  }

  lemma MergePrevLive(s: State, a: nat)
    requires a in s.blocks && InvBut(s, a) && s.blocks[a].free
    ensures Live(MergePrev(s, a)) == Live(s)
    ensures KeepsLive(s, MergePrev(s, a), a)
  {
    if p :| LeftPartner(s, a, p) {
      assert Next(s.blocks, p) == a && p != a;
      assert s.blocks[p].free;
    }
  }

  lemma MarkedMeets(s: State, a: nat)
    requires Inv(s) && a in s.blocks && !s.blocks[a].free
    ensures var m := Marked(s, a);
      && InvBut(m, a) && Next(m.blocks, a) == Next(s.blocks, a) != a
      && Live(m) == Live(s) - {a} && KeepsLive(s, m, a)
      && (Mergeable(m.blocks, Next(m.blocks, a)) ==> Next(m.blocks, a) in m.list)
  {
    hide Windows;
    MarkKeepsTiles(s.start, s.end, s.blocks, a, true);
  }

  lemma ReleaseMeets(s: State, a: nat)
    requires Inv(s) && a in s.blocks && !s.blocks[a].free
    ensures Mergeable(s.blocks, Next(s.blocks, a)) ==> Next(s.blocks, a) in s.list
    ensures Inv(Release(s, a))
    ensures Live(Release(s, a)) == Live(s) - {a}
    ensures KeepsLive(s, Release(s, a), a)
  {
    MarkedMeets(s, a);
    var m := Marked(s, a);
    if Mergeable(m.blocks, Next(m.blocks, a)) {
      AbsorbNextKeepsInvBut(m, a);
      AbsorbNextLive(m, a);
      var n := AbsorbNext(m, a);
      assert KeepsLive(s, n, a);
      MergePrevRestoresInv(n, a);
      MergePrevLive(n, a);
    } else {
      MergePrevRestoresInv(m, a);
      MergePrevLive(m, a);
    }
  }

  /** free keeps the invariant and takes exactly the one block out of use. */
  lemma FreeMeets(s: State, p: nat)
    requires Inv(s) && UserArea(s, p)
    ensures var t := Free(s, p);
      && Inv(t) && t.start == s.start && t.end == s.end
      && KeepsLive(s, t, p - HEADER)
      && Live(t) == if s.list == [] || p == NULL then Live(s) else Live(s) - {p - HEADER}
  {
    if s.list != [] && p != NULL && !s.blocks[p - HEADER].free {
      ReleaseMeets(s, p - HEADER);
    }
  }

  /** The successor block swallowed and the whole re-cut to w words. */
  function Extend(s: State, a: nat, w: nat): State
    requires a in s.blocks && Next(s.blocks, a) in s.blocks && Next(s.blocks, a) in s.list
    requires w <= s.blocks[a].words + s.blocks[Next(s.blocks, a)].words
  {
    Occupy(AbsorbNext(s, a), a, w)
  }

  /** A pointer that the caller holds: NULL or the user area of a block in use. */
  predicate Held(s: State, p: nat) {
    UserArea(s, p) && (p != NULL ==> !s.blocks[p - HEADER].free)
  }

  /** A new area, then the old one freed. */
  ghost function Move(s: State, p: nat, nBytes: nat): (State, nat)
    requires Inv(s) && Held(s, p) && p != NULL
  {
    MallocMeets(s, nBytes);
    var (t, q) := Malloc(s, nBytes);
    assert p - HEADER in Live(s);
    if q == NULL then (s, NULL) else (Free(t, p), q)
  }

  lemma FreeAfterMalloc(s: State, t: State, p: nat, q: nat)
    requires Inv(s) && Inv(t) && HEADER <= p && p - HEADER in Live(s)
    requires KeepsLive(s, t, -1) && t.start == s.start && t.end == s.end
    requires HEADER <= q && q - HEADER !in Live(s) && Live(t) == Live(s) + {q - HEADER}
    ensures Held(t, p)
    ensures var u := Free(t, p);
      && Inv(u) && u.start == s.start && u.end == s.end
      && KeepsLive(s, u, p - HEADER) && p != q
      && q - HEADER in Live(u) && u.blocks[q - HEADER] == t.blocks[q - HEADER]
      && Live(u) == (if t.list == [] then Live(s) else Live(s) - {p - HEADER}) + {q - HEADER}
  {
    hide Inv, Free, Release, Tiles, Windows, Lists, Coalesced, Mergeable, Next, InvBut;
    assert p - HEADER in Live(t);
    FreeMeets(t, p);
    var u := Free(t, p);
    assert q - HEADER in Live(t) && q - HEADER in t.blocks;
    forall a {:trigger a in s.blocks} | a in Live(s) && a != p - HEADER
      ensures a in u.blocks && u.blocks[a] == s.blocks[a]
    {
      assert a in Live(t) && a in t.blocks;
    }
  }

  /** The block behind a can be swallowed to make room for w words. */
  predicate Expandable(s: State, a: nat, w: nat)
    requires a in s.blocks
  {
    && Mergeable(s.blocks, Next(s.blocks, a))
    && s.blocks[a].words + s.blocks[Next(s.blocks, a)].words >= w
  }

  ghost function Realloc(s: State, p: nat, nBytes: nat): (State, nat)
    requires Inv(s) && Held(s, p)
  {
    if nBytes == 0 then (Free(s, p), NULL)
    else if p == NULL then Malloc(s, nBytes)
    else if s.list == [] then (s, NULL)
    else if nBytes <= 4 * s.blocks[p - HEADER].words then (s, p)
    else
      if Expandable(s, p - HEADER, AlignedWords(nBytes)) then
        (Extend(s, p - HEADER, AlignedWords(nBytes)), p)
      else
        Move(s, p, nBytes)
  }

  /**
   What realloc promises.  Every other block in use stays.  A non-NULL answer is an area in
   use of at least nBytes; NULL for a non-zero size means that nothing changed.  When the
   block moves, the old one is given back, unless the move exhausted the free list.
   */
  ghost predicate ReallocOutcome(s: State, p: nat, nBytes: nat, exhausted: bool, t: State, q: nat)
    requires Inv(s) && Held(s, p)
  {
    && Inv(t) && t.start == s.start && t.end == s.end
    && KeepsLive(s, t, p - HEADER)
    && (q == NULL && nBytes != 0 ==> t == s)
    && (q != NULL ==> HEADER <= q && q - HEADER in Live(t) && 4 * t.blocks[q - HEADER].words >= nBytes)
    && (q != NULL && q == p ==> Live(t) == Live(s))
    && (q != NULL && q != p ==>
          && q - HEADER !in Live(s)
          && Live(t) == (if exhausted then Live(s) else Live(s) - {p - HEADER})
                        + {q - HEADER})
  }

  lemma MoveMeets(s: State, p: nat, nBytes: nat)
    requires Inv(s) && Held(s, p) && p != NULL && 0 < nBytes <= 0xFFFF_FFFC
    ensures ReallocOutcome(s, p, nBytes, Malloc(s, nBytes).0.list == [], Move(s, p, nBytes).0, Move(s, p, nBytes).1)
  {
    MallocMeets(s, nBytes);
    MovedOutcome(s, p, nBytes, Malloc(s, nBytes));
  }

  lemma MovedOutcome(s: State, p: nat, nBytes: nat, m: (State, nat))
    requires Inv(s) && Held(s, p) && p != NULL && 0 < nBytes <= 0xFFFF_FFFC
    requires Inv(m.0) && m.0.start == s.start && m.0.end == s.end
    requires KeepsLive(s, m.0, -1) && (m.1 == NULL ==> m.0 == s)
    requires m.1 != NULL ==>
      && HEADER <= m.1 && m.1 - HEADER !in Live(s) && Live(m.0) == Live(s) + {m.1 - HEADER}
      && m.0.blocks[m.1 - HEADER].words >= AlignedWords(nBytes)
    ensures UserArea(m.0, p)
    ensures ReallocOutcome(s, p, nBytes, m.0.list == [], if m.1 == NULL then s else Free(m.0, p), m.1)
  {
    hide InvBut;
    assert p - HEADER in Live(s);
    if m.1 != NULL {
      FreeAfterMalloc(s, m.0, p, m.1);
    }
  }

  lemma FreshMeets(s: State, nBytes: nat)
    requires Inv(s) && 0 < nBytes <= 0xFFFF_FFFC
    ensures ReallocOutcome(s, NULL, nBytes, true, Malloc(s, nBytes).0, Malloc(s, nBytes).1)
  {
    MallocMeets(s, nBytes);
  }

  lemma GrownMeets(s: State, p: nat, nBytes: nat, exhausted: bool)
    requires Inv(s) && Held(s, p) && p != NULL && 0 < nBytes <= 0xFFFF_FFFC
    requires Expandable(s, p - HEADER, AlignedWords(nBytes))
    ensures Next(s.blocks, p - HEADER) in s.list
    ensures ReallocOutcome(s, p, nBytes, exhausted, Extend(s, p - HEADER, AlignedWords(nBytes)), p)
  {
    hide InvBut, Extend;
    ExtendMeets(s, p - HEADER, AlignedWords(nBytes));
  }

  /** Some free block has w words. */
  predicate Available(s: State, w: nat) {
    exists a :: a in s.blocks && s.blocks[a].free && s.blocks[a].words >= w
  }

  /** realloc can meet the request: by the block itself, by its successor, or by another one. */
  predicate CanRealloc(s: State, p: nat, nBytes: nat)
    requires Held(s, p)
  {
    if p == NULL then Available(s, AlignedWords(nBytes))
    else
      && s.list != []
      && (nBytes <= 4 * s.blocks[p - HEADER].words
          || Expandable(s, p - HEADER, AlignedWords(nBytes))
          || Available(s, AlignedWords(nBytes)))
  }

  /** The outcome of realloc, and when it succeeds: never with an empty free list, even if the block is large enough. */
  lemma ReallocMeets(s: State, p: nat, nBytes: nat)
    requires Inv(s) && Held(s, p) && nBytes <= 0xFFFF_FFFC
    ensures Realloc(s, p, nBytes).1 != NULL <==> nBytes != 0 && CanRealloc(s, p, nBytes)
    ensures ReallocOutcome(s, p, nBytes, p == NULL || Malloc(s, nBytes).0.list == [],
                           Realloc(s, p, nBytes).0, Realloc(s, p, nBytes).1)
  {
    hide InvBut, ReallocOutcome, KeepsLive, Malloc, Extend, Available;
    ListedAreBlocks(s);
    if nBytes == 0 {
      FreedOutcome(s, p);
    } else if p == NULL {
      MallocFindsIff(s, nBytes);
      FreshMeets(s, nBytes);
    } else if s.list == [] || nBytes <= 4 * s.blocks[p - HEADER].words {
      NothingMoves(s, p, nBytes, Malloc(s, nBytes).0.list == [], if s.list == [] then NULL else p);
    } else if Expandable(s, p - HEADER, AlignedWords(nBytes)) {
      GrownMeets(s, p, nBytes, Malloc(s, nBytes).0.list == []);
    } else {
      MallocFindsIff(s, nBytes);
      MoveMeets(s, p, nBytes);
      MovedWhere(s, p, nBytes);
    }
  }

  lemma MallocFindsIff(s: State, nBytes: nat)
    requires Inv(s)
    ensures Malloc(s, nBytes).1 != NULL <==> Available(s, AlignedWords(nBytes))
  {
    hide InvBut, KeepsLive, Malloc;
    MallocMeets(s, nBytes);
  }

  lemma MovedWhere(s: State, p: nat, nBytes: nat)
    requires Inv(s) && Held(s, p) && p != NULL
    ensures Move(s, p, nBytes).1 == Malloc(s, nBytes).1
  {
    hide InvBut, KeepsLive, Malloc;
  }

  lemma FreedOutcome(s: State, p: nat)
    requires Inv(s) && Held(s, p)
    ensures ReallocOutcome(s, p, 0, p == NULL || Malloc(s, 0).0.list == [], Free(s, p), NULL)
  {
    hide InvBut, KeepsLive, Malloc;
    FreeMeets(s, p);
  }

  lemma NothingMoves(s: State, p: nat, nBytes: nat, exhausted: bool, q: nat)
    requires Inv(s) && Held(s, p) && p != NULL && (q == NULL || (q == p && nBytes <= 4 * s.blocks[p - HEADER].words))
    ensures ReallocOutcome(s, p, nBytes, exhausted, s, q)
  {
  }

  lemma ExtendMeets(s: State, a: nat, w: nat)
    requires Inv(s) && a in Live(s) && Mergeable(s.blocks, Next(s.blocks, a))
    requires w <= s.blocks[a].words + s.blocks[Next(s.blocks, a)].words
    ensures Next(s.blocks, a) in s.list
    ensures Inv(Extend(s, a, w)) && Extend(s, a, w).start == s.start && Extend(s, a, w).end == s.end
    ensures Live(Extend(s, a, w)) == Live(s)
    ensures KeepsLive(s, Extend(s, a, w), a)
    ensures Extend(s, a, w).blocks[a].words >= w
  {
    assert InvBut(s, a);
    AbsorbNextKeepsInvBut(s, a);
    AbsorbNextLive(s, a);
    OccupyRestoresInv(AbsorbNext(s, a), a, w);
    OccupyLive(AbsorbNext(s, a), a, w);
  }

  /** What has been freed is listed first, joined with the free blocks around it. */
  lemma FreeIsListedFirst(s: State, p: nat)
    requires Inv(s) && Held(s, p) && p != NULL && s.list != []
    ensures var t := Free(s, p);
      t.list != [] && t.list[0] in t.blocks && t.list[0] <= p - HEADER < Next(t.blocks, t.list[0])
  {
    hide InvBut, Unlinked, IndexOf;
    var a := p - HEADER;
    ReleaseMeets(s, a);
    MarkedMeets(s, a);
    var m := Marked(s, a);
    var n := if Mergeable(m.blocks, Next(m.blocks, a)) then AbsorbNext(m, a) else m;
    assert a in n.blocks && Release(s, a) == MergePrev(n, a);
    if x :| LeftPartner(n, a, x) {
      assert Next(n.blocks, x) == a;
    }
  }

  // ---------------------------------------------------------------- how much is taken

  /**
   Of `total` words from header a on, block a now has w in use and a free block the rest, which is
   listed first; or all of them, when fewer than 5 words would be left.  Of the other blocks those in
   `gone` are no longer blocks, and the rest are as before; the list was this one but for the rest.
   */
  ghost predicate Leaves(s: State, t: State, a: nat, total: nat, w: nat, gone: set<nat>, list: seq<nat>) {
    var rest := a + HEADER + w;
    && a in t.blocks && !t.blocks[a].free
    && (if total < w + 5 then
          t.blocks[a].words == total && t.blocks.Keys == s.blocks.Keys - gone && t.list == list
        else
          && t.blocks[a].words == w && rest in t.blocks && t.blocks[rest].free
          && t.blocks[rest].words == total - w - HEADER
          && t.blocks.Keys == s.blocks.Keys - gone + {rest} && rest !in s.blocks.Keys - gone && t.list == [rest] + list)
    && forall x {:trigger t.blocks[x]} :: x in s.blocks && x !in gone && x != a ==>
         x in t.blocks && t.blocks[x] == s.blocks[x]
  }

  /** malloc takes the first listed block that is large enough, and of it just the words asked for. */
  lemma MallocTakes(s: State, nBytes: nat)
    requires Inv(s)
    ensures forall a :: a in s.list ==> a in s.blocks
    ensures var (t, p) := Malloc(s, nBytes); var w := AlignedWords(nBytes);
      p != NULL ==>
        exists i {:trigger s.list[i]} :: 0 <= i < |s.list| && p == s.list[i] + HEADER
          && (forall j :: 0 <= j < i ==> s.blocks[s.list[j]].words < w) && w <= s.blocks[s.list[i]].words
          && Leaves(s, t, s.list[i], s.blocks[s.list[i]].words, w, {}, s.list[..i] + s.list[i + 1..])
  {
    hide InvBut, Leaves, Occupy, Unlinked, IndexOf;
    ListedAreBlocks(s);
    var w := AlignedWords(nBytes);
    var i := FirstFit(s.blocks, s.list, w);
    if i < |s.list| {
      UnlinkedIsDropped(s, i);
      UnlinkedBlock(s, i);
      OccupyLeaves(s, Unlinked(s, s.list[i]), s.list[i], w, {});
    }
  }

  lemma UnlinkedIsDropped(s: State, i: nat)
    requires Inv(s) && i < |s.list|
    ensures Unlinked(s, s.list[i]) == s.(list := s.list[..i] + s.list[i + 1..])
  {
    assert s.list[i] in s.list;
    assert IndexOf(s.list, s.list[i]) == i;
  }

  lemma UnlinkedBlock(s: State, i: nat)
    requires Inv(s) && i < |s.list|
    ensures s.list[i] in s.blocks && InvBut(Unlinked(s, s.list[i]), s.list[i])
  {
    assert s.list[i] in s.list;
    UnlinkedKeepsInvBut(s, s.list[i]);
  }

  lemma OccupyLeaves(s: State, m: State, a: nat, w: nat, gone: set<nat>)
    requires a in m.blocks && InvBut(m, a) && w <= m.blocks[a].words
    requires m.blocks.Keys == s.blocks.Keys - gone
    requires forall x :: x in m.blocks && x != a ==> m.blocks[x] == s.blocks[x]
    ensures Leaves(s, Occupy(m, a, w), a, m.blocks[a].words, w, gone, m.list)
  {
    hide Windows, Lists, Coalesced;
    if m.blocks[a].words - w >= MIN_SPLIT {
      SplitKeepsTiles(m.start, m.end, m.blocks, a, w);
    }
  }

  /** A block that realloc grows in place gets just the words asked for of itself and its successor. */
  lemma GrowTakes(s: State, p: nat, nBytes: nat)
    requires Inv(s) && Held(s, p) && p != NULL && 4 * s.blocks[p - HEADER].words < nBytes <= 0xFFFF_FFFC
    requires Expandable(s, p - HEADER, AlignedWords(nBytes))
    ensures var (t, q) := Realloc(s, p, nBytes); var a := p - HEADER; var n := Next(s.blocks, a);
      && q == p
      && exists i {:trigger s.list[i]} :: 0 <= i < |s.list| && s.list[i] == n
           && Leaves(s, t, a, s.blocks[a].words + HEADER + s.blocks[n].words, AlignedWords(nBytes), {n},
                     s.list[..i] + s.list[i + 1..])
  {
    hide InvBut, Leaves, Occupy, Unlinked, IndexOf;
    var a, w := p - HEADER, AlignedWords(nBytes);
    var n := Next(s.blocks, a);
    MergeableIsListed(s, n);
    var i :| 0 <= i < |s.list| && s.list[i] == n;
    UnlinkedIsDropped(s, i);
    AbsorbNextHeld(s, a);
    OccupyLeaves(s, AbsorbNext(s, a), a, w, {n});
  }

  lemma AbsorbNextHeld(s: State, a: nat)
    requires Inv(s) && a in s.blocks && !s.blocks[a].free && Mergeable(s.blocks, Next(s.blocks, a))
    ensures Next(s.blocks, a) in s.list && a != Next(s.blocks, a)
    ensures InvBut(AbsorbNext(s, a), a)
  {
    assert InvBut(s, a);
    AbsorbNextKeepsInvBut(s, a);
  }

  // ---------------------------------------------------------------- what the invariant gives callers

  /** Live user areas are pairwise disjoint, and disjoint from every header. */
  lemma UserAreasAreSeparate(s: State, a: nat, b: nat, x: nat)
    requires Inv(s) && a in s.blocks && b in s.blocks && a != b
    requires a + HEADER <= x < Next(s.blocks, a)
    ensures x < b || Next(s.blocks, b) <= x
  {
    assert Next(s.blocks, a) <= b || Next(s.blocks, b) <= a;
  }

  /** No user area crosses a 64 KB boundary, so none exceeds 65520 bytes. */
  lemma UserAreaStaysInWindow(s: State, a: nat)
    requires Inv(s) && a in s.blocks
    ensures 4 * s.blocks[a].words <= 65520
    ensures forall x :: a + HEADER <= x < Next(s.blocks, a) ==> x / 0x4000 == (a + HEADER) / 0x4000
  {
    hide Windows, Lists, Coalesced, OneWindow;
    OneWindowOf(s, a);
    WithinWindow(a, Next(s.blocks, a), a + HEADER);
    forall x | a + HEADER <= x < Next(s.blocks, a) ensures x / 0x4000 == (a + HEADER) / 0x4000 {
      WithinWindow(a, Next(s.blocks, a), x);
    }
  }

  lemma OneWindowOf(s: State, a: nat)
    requires Inv(s) && a in s.blocks
    ensures OneWindow(a, Next(s.blocks, a))
  {
    hide Lists, Coalesced, OneWindow, Tiles;
  }

  lemma WithinWindow(a: nat, b: nat, x: nat)
    requires OneWindow(a, b) && a + 1 <= x <= b
    ensures x / 0x4000 == (a + 1) / 0x4000 && b - (a + 1) < 0x4000
  {
    var w := (a + 1) / 0x4000;
    assert 0x4000 * w <= a + 1 && b < 0x4000 * (w + 1);
  }

  /** Requests above 65520 bytes are refused; only an ALIGN that wraps escapes this. */
  lemma LargeRequestsAreRefused(s: State, nBytes: nat)
    requires Inv(s) && 65520 < nBytes <= 0xFFFF_FFFC
    ensures Malloc(s, nBytes) == (s, NULL)
  {
    MallocMeets(s, nBytes);
    var (t, p) := Malloc(s, nBytes);
    if p != NULL {
      UserAreaStaysInWindow(t, p - HEADER);
    }
  }

  /** ALIGN yields at least the requested size exactly when the request is at most 2^32 - 4; never a word more. */
  lemma AlignIsFaithful(nBytes: nat)
    requires nBytes < 0x1_0000_0000
    ensures 4 * AlignedWords(nBytes) >= nBytes <==> nBytes <= 0xFFFF_FFFC
    ensures 4 * AlignedWords(nBytes) < nBytes + 4
  {
  }

  /** The words of a block. */
  function WordsAt(blocks: map<nat, Block>, a: nat): nat {
    if a in blocks then blocks[a].words else 0
  }

  /** What is left of a free block when no words are asked for. */
  function ShortOrNone(words: nat): nat {
    if words >= MIN_SPLIT then 0 else words
  }

  /** A size above 2^32 - 4, which ALIGN takes to 0, for a block in use. */
  predicate Wraps(s: State, p: nat, nBytes: nat) {
    Held(s, p) && p != NULL && s.list != [] && 0xFFFF_FFFC < nBytes < 0x1_0000_0000
  }

  /** Then a block that could grow is cut down, to no words at all unless it and its successor have none. */
  lemma WrappedGrow(s: State, a: nat, nBytes: nat)
    requires a in s.blocks && Wraps(s, a + HEADER, nBytes) && Expandable(s, a, 0) && Inv(s)
    ensures var (t, q) := Realloc(s, a + HEADER, nBytes);
      q == a + HEADER && WordsAt(t.blocks, a) == CutDown(s.blocks, a)
  {
    hide *;
    WrappedIsExtended(s, a, nBytes);
    ExtendedByNothing(s, a);
  }

  function CutDown(blocks: map<nat, Block>, a: nat): nat
    requires a in blocks
  {
    if blocks[a].words == WordsAt(blocks, Next(blocks, a)) == 0 then HEADER else 0
  }

  lemma WrappedIsExtended(s: State, a: nat, nBytes: nat)
    requires a in s.blocks && Wraps(s, a + HEADER, nBytes) && Expandable(s, a, 0) && Inv(s)
    ensures Next(s.blocks, a) in s.blocks && Next(s.blocks, a) in s.list
    ensures Realloc(s, a + HEADER, nBytes) == (Extend(s, a, 0), a + HEADER)
  {
    hide InvBut, Extend, Move;
    UsersSize(s, a + HEADER);
    MergeableIsListed(s, Next(s.blocks, a));
  }

  lemma ExtendedByNothing(s: State, a: nat)
    requires a in s.blocks && Next(s.blocks, a) in s.blocks && Next(s.blocks, a) in s.list
    ensures WordsAt(Extend(s, a, 0).blocks, a) == CutDown(s.blocks, a)
  {
    hide Unlinked;
  }

  /** And any other is moved to the first listed block, of which only a short one is not cut down to no words. */
  lemma WrappedMove(s: State, p: nat, nBytes: nat)
    requires Wraps(s, p, nBytes) && !Expandable(s, p - HEADER, 0) && Inv(s)
    ensures Realloc(s, p, nBytes).1 == s.list[0] + HEADER
    ensures forall a :: a in s.list ==> a in s.blocks
    ensures WordsAt(Malloc(s, nBytes).0.blocks, s.list[0]) == ShortOrNone(WordsAt(s.blocks, s.list[0]))
  {
    hide *;
    ListedAreBlocks(s);
    WrappedIsMoved(s, p, nBytes);
    MallocOfNothing(s, nBytes);
  }

  lemma WrappedIsMoved(s: State, p: nat, nBytes: nat)
    requires Wraps(s, p, nBytes) && !Expandable(s, p - HEADER, 0) && Inv(s)
    ensures forall a :: a in s.list ==> a in s.blocks
    ensures s.list != [] && AlignedWords(nBytes) == 0 && Realloc(s, p, nBytes).1 == Malloc(s, nBytes).1
  {
    hide InvBut, Extend, Malloc, KeepsLive;
    UsersSize(s, p);
    ListedAreBlocks(s);
    MovedWhere(s, p, nBytes);
  }

  lemma MallocOfNothing(s: State, nBytes: nat)
    requires s.list != [] && AlignedWords(nBytes) == 0 && forall a :: a in s.list ==> a in s.blocks
    ensures Malloc(s, nBytes).1 == s.list[0] + HEADER
    ensures WordsAt(Malloc(s, nBytes).0.blocks, s.list[0]) == ShortOrNone(WordsAt(s.blocks, s.list[0]))
  {
    hide Drop;
    assert s.list[0] in s.list;
  }

  lemma UsersSize(s: State, p: nat)
    requires Inv(s) && Held(s, p) && p != NULL
    ensures 4 * s.blocks[p - HEADER].words <= 65520
  {
    hide InvBut;
    UserAreaStaysInWindow(s, p - HEADER);
  }

  lemma MergeableIsListed(s: State, a: nat)
    requires Inv(s) && Mergeable(s.blocks, a)
    ensures a in s.list
  {
  }

  /**
   Whether realloc copies no more than the new area has room for, when it moves a block: always
   up to 2^32 - 4 bytes, and above that only if the first listed block is short but long enough.
   */
  lemma CopyFitsIff(s: State, p: nat, nBytes: nat)
    requires Inv(s) && Held(s, p) && p != NULL && 4 * s.blocks[p - HEADER].words < nBytes < 0x1_0000_0000
    requires s.list != [] && !Expandable(s, p - HEADER, AlignedWords(nBytes)) && Available(s, AlignedWords(nBytes))
    ensures forall a :: a in s.list ==> a in s.blocks
    ensures Realloc(s, p, nBytes).1 == Malloc(s, nBytes).1 >= HEADER
    ensures WordsAt(s.blocks, p - HEADER) <= WordsAt(Malloc(s, nBytes).0.blocks, Malloc(s, nBytes).1 - HEADER) <==>
              nBytes <= 0xFFFF_FFFC || WordsAt(s.blocks, p - HEADER) <= ShortOrNone(WordsAt(s.blocks, s.list[0]))
  {
    hide InvBut, Tiles, Free, KeepsLive;
    ListedAreBlocks(s);
    MovedWhere(s, p, nBytes);
    MallocFindsIff(s, nBytes);
    if nBytes <= 0xFFFF_FFFC {
      MallocMeets(s, nBytes);
    } else {
      WrappedMove(s, p, nBytes);
    }
  }

  /** Every word of the heap range belongs to some block. */
  lemma {:induction false} Covering(start: nat, end: nat, blocks: map<nat, Block>, from: nat, x: nat) returns (a: nat)
    requires Tiles(start, end, blocks) && from in blocks && from <= x < end
    ensures a in blocks && a <= x < Next(blocks, a)
    decreases end - from
  {
    if x < Next(blocks, from) {
      a := from;
    } else {
      a := Covering(start, end, blocks, Next(blocks, from), x);
    }
  }

  /** A block in use begins or ends at a. */
  ghost predicate Borders(s: State, a: nat) {
    a in Live(s) || exists b :: b in Live(s) && b in s.blocks && Next(s.blocks, b) == a
  }

  /** Blocks begin at the start of the range, where a window opens, and where a block in use begins or ends. */
  lemma BlockStarts(s: State, a: nat)
    requires Inv(s) && s.start <= a < s.end
    ensures a in s.blocks <==> a == s.start || Opens(a) || Borders(s, a)
  {
    hide InvBut, Opens, Live;
    StartIsBlock(s);
    if Opens(a) {
      OpenerIsBlock(s, a);
    } else if Borders(s, a) {
      BorderIsBlock(s, a);
    } else if a in s.blocks && a != s.start {
      FreeBlockOpens(s, a);
    }
  }

  lemma StartIsBlock(s: State)
    requires Inv(s) && s.start < s.end
    ensures s.start in s.blocks
  {
  }

  lemma OpenerIsBlock(s: State, a: nat)
    requires Inv(s) && s.start <= a < s.end && Opens(a)
    ensures a in s.blocks
  {
    hide Lists, Coalesced, Opens, OneWindow;
    var b := Covering(s.start, s.end, s.blocks, s.start, a);
    assert OneWindow(b, Next(s.blocks, b));
    if b < a {
      CutInWindow(b, a, Next(s.blocks, b));
    }
  }

  lemma BorderIsBlock(s: State, a: nat)
    requires Inv(s) && s.start <= a < s.end && Borders(s, a)
    ensures a in s.blocks
  {
    hide Lists, Coalesced, Windows;
  }

  lemma FreeBlockOpens(s: State, a: nat)
    requires Inv(s) && a in s.blocks && a != s.start && !Borders(s, a)
    ensures Opens(a)
  {
    hide Lists, OneWindow, Opens;
    var b := Covering(s.start, s.end, s.blocks, s.start, a - 1);
    assert b < a && Next(s.blocks, b) == a;
    assert b !in Live(s) && a !in Live(s);
    assert !Mergeable(s.blocks, a);
  }

  /** So the range and the blocks in use alone determine the free blocks. */
  lemma PartitionIsUnique(s: State, t: State)
    requires Inv(s) && Inv(t) && s.start == t.start && s.end == t.end
    requires Live(s) == Live(t) && KeepsLive(s, t, -1)
    ensures s.blocks == t.blocks
  {
    hide InvBut, Opens, Borders;
    forall a | s.start <= a < s.end ensures a in s.blocks <==> a in t.blocks {
      BlockStarts(s, a);
      BlockStarts(t, a);
      SameBorders(s, t, a);
    }
    BlocksInRange(s);
    BlocksInRange(t);
    forall a | a in s.blocks && a in t.blocks ensures s.blocks[a] == t.blocks[a] {
      SameBlock(s, t, a);
    }
  }

  lemma BlocksInRange(s: State)
    requires Inv(s)
    ensures forall a :: a in s.blocks ==> s.start <= a < s.end
  {
  }

  lemma SameBorders(s: State, t: State, a: nat)
    requires Live(s) == Live(t) && KeepsLive(s, t, -1)
    ensures Borders(s, a) <==> Borders(t, a)
  {
    forall b | b in Live(s) ensures b in s.blocks && b in t.blocks && Next(s.blocks, b) == Next(t.blocks, b) {
      assert b in s.blocks;
    }
  }

  lemma SameBlock(s: State, t: State, a: nat)
    requires Inv(s) && Inv(t) && s.start == t.start && s.end == t.end
    requires Live(s) == Live(t) && KeepsLive(s, t, -1)
    requires a in s.blocks && a in t.blocks && forall x :: x in s.blocks <==> x in t.blocks
    ensures s.blocks[a] == t.blocks[a]
  {
    hide Lists, Coalesced, OneWindow;
    if a !in Live(s) {
      assert a !in Live(t);
      assert Next(s.blocks, a) == Next(t.blocks, a);
    }
  }

  /** Of an idle heap the range alone does. */
  lemma IdlePartitionIsUnique(s: State, t: State)
    requires Inv(s) && Inv(t) && Live(s) == Live(t) == {}
    requires s.start == t.start && s.end == t.end
    ensures s.blocks == t.blocks
  {
    hide InvBut, Live;
    PartitionIsUnique(s, t);
  }

  /** free undoes malloc: the blocks are as they were, unless malloc took the last free one. */
  lemma FreeUndoesMalloc(s: State, nBytes: nat)
    requires Inv(s) && Malloc(s, nBytes).1 != NULL
    ensures var (t, p) := Malloc(s, nBytes);
      Inv(t) && UserArea(t, p) && (Free(t, p).blocks == s.blocks <==> t.list != [])
  {
    hide InvBut, Malloc, Free;
    ListedAreBlocks(s);
    MallocMeets(s, nBytes);
    var (t, p) := Malloc(s, nBytes);
    var a := p - HEADER;
    assert a in Live(t) && a in t.blocks && a !in Live(s);
    FreeMeets(t, p);
    if t.list != [] {
      BackAgain(s, t, Free(t, p), a);
      PartitionIsUnique(s, Free(t, p));
    }
  }

  lemma BackAgain(s: State, t: State, u: State, a: nat)
    requires KeepsLive(s, t, -1) && KeepsLive(t, u, a) && Live(t) == Live(s) + {a} && Live(u) == Live(t) - {a}
    requires a !in Live(s)
    ensures Live(u) == Live(s) && KeepsLive(s, u, -1)
  {
    forall x {:trigger x in s.blocks} | x in Live(s) ensures x in u.blocks && u.blocks[x] == s.blocks[x] {
      assert x in s.blocks && x in t.blocks && x in Live(t);
    }
  }

  // ---------------------------------------------------------------- whole runs

  datatype Call = MallocCall(nBytes: nat) | FreeCall(p: nat) | ReallocCall(p: nat, nBytes: nat)

  predicate Permitted(s: State, c: Call) {
    match c
    case MallocCall(_) => true
    case FreeCall(p) => UserArea(s, p)
    case ReallocCall(p, n) => Held(s, p) && n <= 0xFFFF_FFFC
  }

  ghost function Step(s: State, c: Call): State
    requires Inv(s) && Permitted(s, c)
  {
    match c
    case MallocCall(n) => Malloc(s, n).0
    case FreeCall(p) => Free(s, p)
    case ReallocCall(p, n) => Realloc(s, p, n).0
  }

  lemma StepKeepsInv(s: State, c: Call)
    requires Inv(s) && Permitted(s, c)
    ensures Inv(Step(s, c)) && Step(s, c).start == s.start && Step(s, c).end == s.end
  {
    match c
    case MallocCall(n) => MallocMeets(s, n);
    case FreeCall(p) => FreeMeets(s, p);
    case ReallocCall(p, n) => ReallocMeets(s, p, n);
  }

  /** t can be reached from s by the given calls. */
  ghost predicate Reaches(s: State, calls: seq<Call>, t: State)
    requires Inv(s)
    decreases |calls|
  {
    if calls == [] then s == t
    else
      Permitted(s, calls[0]) &&
      (StepKeepsInv(s, calls[0]); Reaches(Step(s, calls[0]), calls[1..], t))
  }

  /**
   Over every run the invariant holds; and whenever the blocks in use are those of the start, so
   are the free ones: when none is in use, the heap is partitioned as it was when it started idle.
   */
  lemma {:induction false} EveryRun(s: State, calls: seq<Call>, t: State)
    requires Inv(s) && Reaches(s, calls, t)
    ensures Inv(t) && t.start == s.start && t.end == s.end
    ensures Live(s) == Live(t) && KeepsLive(s, t, -1) ==> t.blocks == s.blocks
    ensures Live(s) == Live(t) == {} ==> t.blocks == s.blocks
    decreases |calls|
  {
    RunKeepsInv(s, calls, t);
    if Live(s) == Live(t) && KeepsLive(s, t, -1) {
      PartitionIsUnique(s, t);
    }
  }

  lemma {:induction false} RunKeepsInv(s: State, calls: seq<Call>, t: State)
    requires Inv(s) && Reaches(s, calls, t)
    ensures Inv(t) && t.start == s.start && t.end == s.end
    decreases |calls|
  {
    if calls != [] {
      StepKeepsInv(s, calls[0]);
      RunKeepsInv(Step(s, calls[0]), calls[1..], t);
    }
  }
}

/**
 malloc, free, realloc and HeapInit of src/stdlib.c over a memory of 4-byte words.  Each
 method is proved to take the headers and links in memory from an encoding of one
 HeapModel.State to an encoding of the state the model's operation yields.
 */
module Heap {
  import opened Common
  import opened HeapModel

  /** Stands for &HeapList, the cell that the first block's Prev points at. */
  const LIST_CELL: nat := 0

  /** A Size (or PrevSize) word: the byte count with BLOCK_FREE and BLOCK_ALIGNED in the low bits. */
  function SizeWord(b: Block): nat {
    4 * b.words + (if b.free then 1 else 0) + (if b.aligned then 2 else 0)
  }

  function SizeOf(word: int): int { word - word % 4 }

  predicate FreeBit(word: int) { word % 2 == 1 }

  predicate AlignedBit(word: int) { word / 2 % 2 == 1 }

  lemma SizeWordBits(b: Block)
    ensures SizeOf(SizeWord(b)) == 4 * b.words
    ensures FreeBit(SizeWord(b)) == b.free
    ensures AlignedBit(SizeWord(b)) == b.aligned
  {
    var f, a := if b.free then 1 else 0, if b.aligned then 1 else 0;
    assert SizeWord(b) == 4 * b.words + 2 * a + f;
    assert SizeWord(b) / 2 == 2 * b.words + a;
  }

  /** Two headers do not overlap. */
  predicate Clear(a: nat, b: nat) { a + HEADER <= b || b + HEADER <= a }

  /** Headers in the list lie inside a memory of `size` words and do not overlap. */
  ghost predicate Apart(list: seq<nat>, size: nat) {
    && (forall i :: 0 <= i < |list| ==> 0 < list[i] && list[i] + HEADER <= size)
    && (forall i, j {:trigger Clear(list[i], list[j])} :: 0 <= i < |list| && 0 <= j < |list| && i != j ==>
          Clear(list[i], list[j]))
  }

  /** Header a can be added to the list. */
  ghost predicate Addable(a: nat, list: seq<nat>, size: nat) {
    0 < a && a + HEADER <= size && forall i :: 0 <= i < |list| ==> Clear(a, list[i])
  }

  lemma AddedIsApart(a: nat, list: seq<nat>, size: nat)
    requires Apart(list, size) && Addable(a, list, size)
    ensures Apart([a] + list, size)
  {
    var l := [a] + list;
    forall i, j {:trigger Clear(l[i], l[j])} | 0 <= i < |l| && 0 <= j < |l| && i != j ensures Clear(l[i], l[j]) {
      assert 0 < i && 0 < j ==> Clear(list[i - 1], list[j - 1]);
    }
  }

  /** What the Next and Prev words of element i have to hold. */
  function NextLink(list: seq<nat>, i: nat): nat
    requires i < |list|
  {
    if i + 1 < |list| then list[i + 1] else NULL
  }

  function PrevLink(list: seq<nat>, i: nat): nat
    requires i < |list|
  {
    if i == 0 then LIST_CELL else list[i - 1] + 3
  }

  function Head(list: seq<nat>): nat {
    if list == [] then NULL else list[0]
  }

  /** The doubly linked list: Next links forward, Prev names the cell that points here. */
  ghost predicate Links(m: seq<int>, list: seq<nat>)
    requires Apart(list, |m|)
  {
    && (forall i {:trigger NextLink(list, i)} :: 0 <= i < |list| ==> m[list[i] + 3] == NextLink(list, i))
    && (forall i {:trigger PrevLink(list, i)} :: 0 <= i < |list| ==> m[list[i] + 2] == PrevLink(list, i))
  }

  /** x is not the Prev or Next word of a block in the list. */
  ghost predicate OffLinks(list: seq<nat>, x: int) {
    forall i :: 0 <= i < |list| ==> x != list[i] + 2 && x != list[i] + 3
  }

  /** The memory after Link. */
  function LinkWrites(m: seq<int>, list: seq<nat>, block: nat): (m': seq<int>)
    requires 0 < block && block + HEADER <= |m| && (list != [] ==> list[0] + HEADER <= |m|)
    ensures |m'| == |m|
  {
    var n := m[block + 2 := LIST_CELL][block + 3 := Head(list)];
    if list == [] then n else n[list[0] + 2 := block + 3]
  }

  lemma LinkedAt(m: seq<int>, list: seq<nat>, block: nat, k: nat)
    requires 0 < block && block + HEADER <= |m| && Apart(list, |m|) && Links(m, list) && k < |list|
    requires Clear(block, list[k]) && (0 < k ==> Clear(list[k], list[0]))
    ensures LinkWrites(m, list, block)[list[k] + 3] == NextLink(list, k)
    ensures LinkWrites(m, list, block)[list[k] + 2] == if k == 0 then block + 3 else PrevLink(list, k)
  {
  }

  lemma LinkedEncodes(m: seq<int>, list: seq<nat>, block: nat)
    requires 0 < block && block + HEADER <= |m| && Apart(list, |m|) && Links(m, list)
    requires Apart([block] + list, |m|)
    ensures Links(LinkWrites(m, list, block), [block] + list)
  {
    var l := [block] + list;
    var m' := LinkWrites(m, list, block);
    forall k {:trigger NextLink(l, k)} {:trigger PrevLink(l, k)} | 0 <= k < |l|
      ensures m'[l[k] + 3] == NextLink(l, k) && m'[l[k] + 2] == PrevLink(l, k) {
      if k == 0 {
        assert list != [] ==> Clear(l[0], l[1]);
      } else {
        assert l[k] == list[k - 1] && Clear(l[0], l[k]);
        assert 1 < k ==> Clear(list[k - 1], list[0]);
        LinkedAt(m, list, block, k - 1);
      }
    }
  }

  lemma DropKeepsApart(list: seq<nat>, size: nat, i: nat)
    requires Apart(list, size) && i < |list|
    ensures Apart(Drop(list, i), size)
  {
    var l := Drop(list, i);
    forall k, n {:trigger Clear(l[k], l[n])} | 0 <= k < |l| && 0 <= n < |l| && k != n ensures Clear(l[k], l[n]) {
      assert Clear(list[if k < i then k else k + 1], list[if n < i then n else n + 1]);
    }
  }

  /** The memory after Unlink. */
  function UnlinkWrites(m: seq<int>, list: seq<nat>, i: nat): (m': seq<int>)
    requires i < |list| && Apart(list, |m|)
    ensures |m'| == |m|
  {
    var n := if i == 0 then m else m[list[i - 1] + 3 := NextLink(list, i)];
    if i + 1 == |list| then n else n[list[i + 1] + 2 := PrevLink(list, i)]
  }

  lemma UnlinkedAt(m: seq<int>, list: seq<nat>, i: nat, j: nat)
    requires Apart(list, |m|) && Links(m, list) && i < |list| && j < |list| && i != j
    ensures UnlinkWrites(m, list, i)[list[j] + 3] == if j + 1 == i then NextLink(list, i) else NextLink(list, j)
    ensures UnlinkWrites(m, list, i)[list[j] + 2] == if j == i + 1 then PrevLink(list, i) else PrevLink(list, j)
  {
    assert 0 < i && j != i - 1 ==> Clear(list[i - 1], list[j]);
    assert i + 1 < |list| && j != i + 1 ==> Clear(list[i + 1], list[j]);
  }

  lemma UnlinkedEncodes(m: seq<int>, list: seq<nat>, i: nat)
    requires Apart(list, |m|) && Links(m, list) && i < |list|
    ensures Apart(Drop(list, i), |m|)
    ensures Links(UnlinkWrites(m, list, i), Drop(list, i))
  {
    DropKeepsApart(list, |m|, i);
    var l := Drop(list, i);
    var m' := UnlinkWrites(m, list, i);
    forall k {:trigger NextLink(l, k)} {:trigger PrevLink(l, k)} | 0 <= k < |l|
      ensures m'[l[k] + 3] == NextLink(l, k) && m'[l[k] + 2] == PrevLink(l, k) {
      UnlinkedAt(m, list, i, if k < i then k else k + 1);
    }
  }

  // ---------------------------------------------------------------- sizes

  /** Every header's Size word and its copy in the following PrevSize word, `ex` excepted. */
  ghost predicate Sizes(m: seq<int>, blocks: map<nat, Block>, ex: set<nat>) {
    && (forall a {:trigger Next(blocks, a)} :: a in blocks ==> Next(blocks, a) < |m|)
    && (forall a {:trigger Next(blocks, a)} :: a in blocks && a !in ex ==> m[Next(blocks, a)] == SizeWord(blocks[a]))
    && (forall a {:trigger a in blocks} :: a in blocks ==> a + 1 < |m|)
    && (forall a {:trigger SizeWord(blocks[a])} :: a in blocks && a !in ex ==> m[a + 1] == SizeWord(blocks[a]))
  }

  /** The memory after `Block->Size = word; NEXT(Block)->PrevSize = Block->Size`. */
  function SizeWrites(m: seq<int>, a: nat, next: nat, word: int): seq<int>
    requires a + 1 < |m| && next < |m|
  {
    m[a + 1 := word][next := word]
  }

  lemma SizeWritesEncode(m: seq<int>, start: nat, end: nat, blocks: map<nat, Block>, ex: set<nat>, a: nat)
    requires Tiles(start, end, blocks) && a in blocks && Sizes(m, blocks, ex)
    ensures Sizes(SizeWrites(m, a, Next(blocks, a), SizeWord(blocks[a])), blocks, ex - {a})
  {
  }

  // ---------------------------------------------------------------- what other users see

  /** The user areas that an operation must leave alone: the blocks `live` of the layout `first`. */
  datatype Clients = Clients(before: seq<int>, first: map<nat, Block>, live: set<nat>)

  /** The user area of block b. */
  function Words(m: seq<int>, blocks: map<nat, Block>, b: nat): seq<int>
    requires b in blocks && Next(blocks, b) <= |m|
  {
    var next := Next(blocks, b);
    m[b + HEADER..next]
  }

  ghost predicate Proper(g: Clients, size: nat) {
    && |g.before| == size && g.live <= g.first.Keys
    && forall b {:trigger Next(g.first, b)} :: b in g.first ==> Next(g.first, b) <= size
  }

  /** Every user area in g reads as it did before. */
  ghost predicate Intact(m: seq<int>, g: Clients)
    requires Proper(g, |m|)
  {
    forall b {:trigger Words(m, g.first, b)} :: b in g.live ==> Words(m, g.first, b) == Words(g.before, g.first, b)
  }

  /** The listed headers are blocks, none of them in `live`. */
  ghost predicate ListsOutside(list: seq<nat>, blocks: map<nat, Block>, live: set<nat>) {
    forall i :: 0 <= i < |list| ==> list[i] in blocks && list[i] !in live
  }

  /** `blocks` still contains the user areas of g. */
  ghost predicate StillCovers(g: Clients, blocks: map<nat, Block>)
    requires g.live <= g.first.Keys
  {
    forall b {:trigger b in g.live} :: b in g.live ==> b in blocks && Next(g.first, b) <= Next(blocks, b)
  }

  lemma HeaderIsOffLinks(start: nat, end: nat, blocks: map<nat, Block>, list: seq<nat>, a: nat)
    requires Tiles(start, end, blocks) && ListsOutside(list, blocks, {}) && a in blocks
    ensures OffLinks(list, a + 1) && OffLinks(list, Next(blocks, a))
  {
    forall i | 0 <= i < |list|
      ensures list[i] + 3 < a + 1 || a + 1 < list[i] + 2
      ensures list[i] + 3 < Next(blocks, a) || Next(blocks, a) < list[i] + 2
    {
      assert list[i] == a || Next(blocks, list[i]) <= a || Next(blocks, a) <= list[i];
    }
  }

  lemma UserAreaIsOffLinks(start: nat, end: nat, blocks: map<nat, Block>, list: seq<nat>, b: nat)
    requires Tiles(start, end, blocks) && ListsOutside(list, blocks, {b}) && b in blocks
    ensures forall x :: b + HEADER <= x < Next(blocks, b) ==> OffLinks(list, x)
  {
    forall i | 0 <= i < |list| ensures list[i] + 3 < b + HEADER || Next(blocks, b) <= list[i] + 2 {
      assert Next(blocks, list[i]) <= b || Next(blocks, b) <= list[i];
    }
  }

  /** Link and Unlink disturb neither size words nor user areas. */
  lemma LinkWritesKeep(m: seq<int>, m': seq<int>, t: State, list: seq<nat>, ex: set<nat>, g: Clients)
    requires Tiles(t.start, t.end, t.blocks) && t.end + 1 < |m| == |m'| && Proper(g, |m|)
    requires ListsOutside(list, t.blocks, g.live) && StillCovers(g, t.blocks)
    requires forall x :: 0 <= x < |m| && OffLinks(list, x) ==> m'[x] == m[x]
    requires Sizes(m, t.blocks, ex) && Intact(m, g)
    ensures Sizes(m', t.blocks, ex)
    ensures Intact(m', g)
    ensures m'[t.end + 1] == m[t.end + 1]
  {
    assert OffLinks(list, t.end + 1) by {
      forall i | 0 <= i < |list| ensures list[i] + 3 < t.end + 1 { assert Next(t.blocks, list[i]) <= t.end; }
    }
    forall a {:trigger Next(t.blocks, a)} | a in t.blocks ensures m'[Next(t.blocks, a)] == m[Next(t.blocks, a)] {
      HeaderIsOffLinks(t.start, t.end, t.blocks, list, a);
    }
    forall a {:trigger SizeWord(t.blocks[a])} | a in t.blocks ensures m'[a + 1] == m[a + 1] {
      HeaderIsOffLinks(t.start, t.end, t.blocks, list, a);
    }
    forall b {:trigger Words(m', g.first, b)} | b in g.live ensures Words(m', g.first, b) == Words(m, g.first, b) {
      assert Next(g.first, b) <= Next(t.blocks, b);
      UserAreaIsOffLinks(t.start, t.end, t.blocks, list, b);
    }
  }

  /** Writing a size disturbs neither links nor user areas. */
  lemma SizeWritesKeep(m: seq<int>, t: State, a: nat, word: int, g: Clients)
    requires Tiles(t.start, t.end, t.blocks) && t.end < |m| && a in t.blocks && Proper(g, |m|)
    requires ListsOutside(t.list, t.blocks, {}) && StillCovers(g, t.blocks) && Intact(m, g)
    requires Apart(t.list, |m|) && Links(m, t.list)
    ensures Links(SizeWrites(m, a, Next(t.blocks, a), word), t.list)
    ensures Intact(SizeWrites(m, a, Next(t.blocks, a), word), g)
  {
    var m' := SizeWrites(m, a, Next(t.blocks, a), word);
    HeaderIsOffLinks(t.start, t.end, t.blocks, t.list, a);
    forall b {:trigger Words(m', g.first, b)} | b in g.live ensures Words(m', g.first, b) == Words(m, g.first, b) {
      assert Next(g.first, b) <= Next(t.blocks, b);
      assert b == a || Next(t.blocks, b) <= a || Next(t.blocks, a) <= b;
    }
  }

  lemma ListIsApart(s: State, size: nat)
    requires Inv(s) && s.end < size
    ensures Apart(s.list, size) && ListsOutside(s.list, s.blocks, Live(s))
  {
    forall i | 0 <= i < |s.list| ensures s.list[i] in s.blocks && s.list[i] !in Live(s) && s.list[i] + HEADER <= s.end {
      assert s.list[i] in s.list;
      assert Next(s.blocks, s.list[i]) <= s.end;
    }
    forall i, j {:trigger Clear(s.list[i], s.list[j])} | 0 <= i < |s.list| && 0 <= j < |s.list| && i != j
      ensures Clear(s.list[i], s.list[j])
    {
      assert Next(s.blocks, s.list[i]) <= s.list[j] || Next(s.blocks, s.list[j]) <= s.list[i];
    }
  }

  lemma IndexInDistinct(list: seq<nat>, i: nat)
    requires Distinct(list) && i < |list|
    ensures IndexOf(list, list[i]) == i
  {
  }

  // ---------------------------------------------------------------- stages of an operation

  /**
   A point inside an operation: memory encodes the layout and list of t, except that the size
   words of the headers in `ex` are still to be written, and the user areas of g are intact.
   The word past the heap does not look like a free block that could be merged.
   */
  ghost predicate Stage(m: seq<int>, head: int, t: State, ex: set<nat>, g: Clients) {
    && Tiles(t.start, t.end, t.blocks) && t.end + 1 < |m|
    && !(FreeBit(m[t.end + 1]) && !AlignedBit(m[t.end + 1]))
    && Apart(t.list, |m|) && Links(m, t.list) && head == Head(t.list)
    && Sizes(m, t.blocks, ex)
    && Proper(g, |m|) && Intact(m, g)
    && ListsOutside(t.list, t.blocks, g.live) && StillCovers(g, t.blocks)
  }

  lemma UnlinkStage(m: seq<int>, t: State, i: nat, ex: set<nat>, g: Clients)
    requires Stage(m, Head(t.list), t, ex, g) && i < |t.list|
    ensures Stage(UnlinkWrites(m, t.list, i), Head(Drop(t.list, i)), t.(list := Drop(t.list, i)), ex, g)
  {
    UnlinkedEncodes(m, t.list, i);
    LinkWritesKeep(m, UnlinkWrites(m, t.list, i), t, t.list, ex, g);
  }

  lemma LinkStage(m: seq<int>, t: State, block: nat, ex: set<nat>, g: Clients)
    requires Stage(m, Head(t.list), t, ex, g)
    requires Addable(block, t.list, |m|) && block in t.blocks && block !in g.live
    ensures 0 < block && block + HEADER <= |m|
    ensures Stage(LinkWrites(m, t.list, block), block, Linked(t, block), ex, g)
  {
    AddedIsApart(block, t.list, |m|);
    var l := [block] + t.list;
    assert l[0] == block && (t.list != [] ==> l[1] == t.list[0]);
    LinkedEncodes(m, t.list, block);
    LinkWritesKeep(m, LinkWrites(m, t.list, block), t, l, ex, g);
  }

  lemma SizeStage(m: seq<int>, head: int, t: State, a: nat, ex: set<nat>, g: Clients)
    requires Stage(m, head, t, ex, g) && a in t.blocks
    ensures Next(t.blocks, a) < |m|
    ensures Stage(SizeWrites(m, a, Next(t.blocks, a), SizeWord(t.blocks[a])), head, t, ex - {a}, g)
  {
    SizeWritesEncode(m, t.start, t.end, t.blocks, ex, a);
    SizeWritesKeep(m, t, a, SizeWord(t.blocks[a]), g);
  }

  // Each change of layout leaves exactly the changed headers to be written.

  lemma StageWeakens(m: seq<int>, head: int, t: State, a: nat, g: Clients)
    requires Stage(m, head, t, {}, g)
    ensures Stage(m, head, t, {a}, g)
  {
  }

  lemma MarkStage(m: seq<int>, head: int, t: State, a: nat, free: bool, g: Clients)
    requires Stage(m, head, t, {}, g) && Windows(t.blocks) && a in t.blocks
    ensures Stage(m, head, t.(blocks := Mark(t.blocks, a, free)), {a}, g)
  {
    MarkKeepsTiles(t.start, t.end, t.blocks, a, free);
  }

  lemma AbsorbStage(m: seq<int>, head: int, t: State, a: nat, ex: set<nat>, g: Clients)
    requires Stage(m, head, t, ex, g)
    requires a in t.blocks && Next(t.blocks, a) in t.blocks
    requires Next(t.blocks, a) !in g.live && ListsOutside(t.list, t.blocks, {Next(t.blocks, a)})
    ensures Stage(m, head, t.(blocks := Absorb(t.blocks, a)), ex + {a}, g)
  {
    AbsorbKeepsTiles(t.start, t.end, t.blocks, a);
  }

  lemma SplitStage(m: seq<int>, head: int, t: State, a: nat, w: nat, g: Clients)
    requires Stage(m, head, t, {a}, g)
    requires a in t.blocks && w + MIN_SPLIT <= t.blocks[a].words && (a in g.live ==> Next(g.first, a) <= a + HEADER + w)
    ensures Stage(m, head, t.(blocks := Split(t.blocks, a, w)), {a, a + HEADER + w}, g)
  {
    SplitKeepsTiles(t.start, t.end, t.blocks, a, w);
    var u := Split(t.blocks, a, w);
    assert Next(u, a) == a + HEADER + w < Next(t.blocks, a);
    assert Next(u, a + HEADER + w) == Next(t.blocks, a);
  }

  /** The clients at the start of an operation: every block in use but `target`. */
  function Others(m: seq<int>, s: State, targets: set<nat>): Clients {
    Clients(m, s.blocks, Live(s) - targets)
  }

  lemma StageLists(m: seq<int>, head: int, t: State, g: Clients)
    requires Stage(m, head, t, {}, g)
    ensures t.end + 1 < |m|
    ensures forall i :: 0 <= i < |t.list| ==> t.list[i] in t.blocks && t.list[i] !in g.live
  {
  }

  lemma StageStarts(m: seq<int>, head: int, s: State, g: Clients, targets: set<nat>)
    requires Inv(s) && Stage(m, head, s, {}, g)
    ensures Stage(m, head, s, {}, Others(m, s, targets))
    ensures Proper(g, |m|) && Intact(m, g)
  {
    ListIsApart(s, |m|);
  }

  lemma ListedBlocks(s: State)
    requires Inv(s)
    ensures forall a :: a in s.list ==> a in s.blocks
    ensures forall i :: 0 <= i < |s.list| ==> s.list[i] in s.blocks && s.list[i] != NULL
  {
    assert forall i :: 0 <= i < |s.list| ==> s.list[i] in s.list;
  }

  lemma OthersAreProper(m: seq<int>, s: State, targets: set<nat>)
    requires Inv(s) && s.end < |m|
    ensures Proper(Others(m, s, targets), |m|)
  {
  }

  /** The rest split off an unlisted block can be linked. */
  lemma RestLayout(t: State, a: nat, w: nat, size: nat)
    requires InvBut(t, a) && a in t.blocks && !Mergeable(t.blocks, Next(t.blocks, a)) && t.end < size
    requires t.blocks[a].words >= w + MIN_SPLIT
    ensures a + HEADER + w !in t.blocks && Addable(a + HEADER + w, t.list, size)
  {
    SplitKeepsTiles(t.start, t.end, t.blocks, a, w);
    OccupyRestoresInv(t, a, w);
    var l := Occupy(t, a, w).list;
    ListIsApart(Occupy(t, a, w), size);
    forall j | 0 <= j < |t.list| ensures Clear(a + HEADER + w, t.list[j]) {
      assert l[j + 1] == t.list[j] && Clear(l[0], l[j + 1]);
    }
    assert l[0] + HEADER <= size;
  }

  /** What is known of a listed block that is about to be taken. */
  lemma TakeLayout(s: State, i: nat, w: nat, size: nat)
    requires Inv(s) && s.end < size && i < |s.list| && s.list[i] in s.blocks && w <= s.blocks[s.list[i]].words
    ensures var a := s.list[i];
      && Unlinked(s, a).list == Drop(s.list, i) && s.blocks[a].free && a !in Live(s)
      && Windows(s.blocks)
      && Inv(Occupy(s.(list := Drop(s.list, i)), a, w))
      && (s.blocks[a].words - w >= MIN_SPLIT ==>
            a + HEADER + w !in Live(s) && Addable(a + HEADER + w, Drop(s.list, i), size))
  {
    var a := s.list[i];
    IndexInDistinct(s.list, i);
    UnlinkedKeepsInvBut(s, a);
    assert a in s.list && !Mergeable(s.blocks, Next(s.blocks, a));
    OccupyRestoresInv(Unlinked(s, a), a, w);
    if s.blocks[a].words - w >= MIN_SPLIT {
      RestLayout(Unlinked(s, a), a, w, size);
    }
  }


  lemma {:induction false} FirstFitIs(blocks: map<nat, Block>, list: seq<nat>, w: nat, i: nat)
    requires i <= |list| && forall a :: a in list ==> a in blocks
    requires forall j :: 0 <= j < i ==> blocks[list[j]].words < w
    requires i < |list| ==> blocks[list[i]].words >= w
    ensures FirstFit(blocks, list, w) == i
  {
  }

  lemma SwallowLayout(m: seq<int>, head: int, t: State, a: nat, g: Clients)
    requires Stage(m, head, t, {}, g) && InvBut(t, a) && a in t.blocks && Mergeable(t.blocks, Next(t.blocks, a))
    ensures var n := Next(t.blocks, a);
      && n in t.list && n !in g.live && n != a
      && ListsOutside(Drop(t.list, IndexOf(t.list, n)), t.blocks, {n})
  {
    var n := Next(t.blocks, a);
    assert n in t.list;
    var i := IndexOf(t.list, n);
    forall j | 0 <= j < |Drop(t.list, i)| ensures Drop(t.list, i)[j] != n && Drop(t.list, i)[j] in t.blocks {
      assert Drop(t.list, i)[j] == t.list[if j < i then j else j + 1];
    }
    assert t.list[i] !in g.live;
  }

  /** The block in front of a: the one whose NEXT is a. */
  lemma PrevOf(t: State, a: nat) returns (p: nat)
    requires Tiles(t.start, t.end, t.blocks) && a in t.blocks && t.start < a
    ensures p in t.blocks && Next(t.blocks, p) == a
    ensures forall q :: q in t.blocks && Next(t.blocks, q) == a ==> q == p
  {
    p := Covering(t.start, t.end, t.blocks, t.start, a - 1);
    assert p < a && Next(t.blocks, p) == a;
  }

  lemma AddableLayout(t: State, a: nat, size: nat)
    requires InvBut(t, a) && a in t.blocks && t.end < size
    ensures Addable(a, t.list, size)
  {
    assert Next(t.blocks, a) <= t.end;
    forall i | 0 <= i < |t.list| ensures Clear(a, t.list[i]) {
      assert t.list[i] in t.list;
      assert Next(t.blocks, t.list[i]) <= a || Next(t.blocks, a) <= t.list[i];
    }
  }

  lemma PrevLayout(t: State, a: nat, p: nat, size: nat)
    requires InvBut(t, a) && a in t.blocks && t.end < size
    requires p in t.blocks && t.blocks[p].free && Next(t.blocks, p) == a && !t.blocks[a].aligned
    ensures p in t.list
    ensures var i := IndexOf(t.list, p);
      && ListsOutside(Drop(t.list, i), t.blocks, {a})
      && Addable(p, Drop(t.list, i), size)
      && MergePrev(t, a) == Linked(t.(blocks := Absorb(t.blocks, p), list := Drop(t.list, i)), p)
  {
    assert p in t.list && LeftPartner(t, a, p);
    var q := PrevOf(t, a);
    assert forall x :: LeftPartner(t, a, x) ==> x == p;
    var i := IndexOf(t.list, p);
    var l := Drop(t.list, i);
    UnlinkedIsTheRest(t, p);
    forall j | 0 <= j < |l| ensures l[j] in t.blocks && l[j] != a && Clear(p, l[j]) {
      assert l[j] in l;
      assert Next(t.blocks, p) <= l[j] || Next(t.blocks, l[j]) <= p;
    }
    assert Next(t.blocks, p) <= t.end;
  }

  lemma HeaderReading(m: seq<int>, head: int, t: State, ex: set<nat>, a: nat, g: Clients)
    requires Stage(m, head, t, ex, g) && a in t.blocks && a !in ex
    ensures t.start <= a < t.end < |m| && a + 1 < |m|
    ensures m[a + 1] == SizeWord(t.blocks[a])
    ensures SizeOf(m[a + 1]) == 4 * t.blocks[a].words
    ensures FreeBit(m[a + 1]) == t.blocks[a].free && AlignedBit(m[a + 1]) == t.blocks[a].aligned
  {
    SizeWordBits(t.blocks[a]);
    assert m[a + 1] == SizeWord(t.blocks[a]);
  }

  lemma NoPartner(t: State, a: nat)
    requires InvBut(t, a) && a in t.blocks && (a == t.start || t.blocks[a].aligned)
    ensures MergePrev(t, a) == Linked(t, a)
  {
    assert forall p :: !LeftPartner(t, a, p);
  }

  /** What PREV(a) and the header it leads to say. */
  lemma PrevReading(m: seq<int>, head: int, t: State, a: nat, g: Clients) returns (p: nat)
    requires Stage(m, head, t, {}, g) && InvBut(t, a) && a in t.blocks && t.start < a
    ensures p in t.blocks && Next(t.blocks, p) == a && p + 1 < |m| && a < |m|
    ensures a - SizeOf(m[a]) / 4 - HEADER == p && FreeBit(m[p + 1]) == t.blocks[p].free
    ensures !t.blocks[p].free ==> MergePrev(t, a) == Linked(t, a)
  {
    p := PrevOf(t, a);
    assert forall q :: LeftPartner(t, a, q) ==> q == p && t.blocks[p].free;
    SizeWordBits(t.blocks[p]);
    assert m[p + 1] == SizeWord(t.blocks[p]);
  }

  ghost function AfterNext(t: State, a: nat): State
    requires a in t.blocks
    requires Mergeable(t.blocks, Next(t.blocks, a)) ==> Next(t.blocks, a) in t.list
  {
    if Mergeable(t.blocks, Next(t.blocks, a)) then AbsorbNext(t, a) else t
  }

  lemma ReleaseLayout(s: State, a: nat)
    requires Inv(s) && a in Live(s)
    ensures Windows(s.blocks) && InvBut(Marked(s, a), a)
    ensures var t := Marked(s, a);
      && (Mergeable(t.blocks, Next(t.blocks, a)) ==> Next(t.blocks, a) in t.list)
      && InvBut(AfterNext(t, a), a) && a in AfterNext(t, a).blocks
    ensures Mergeable(s.blocks, Next(s.blocks, a)) ==> Next(s.blocks, a) in s.list
    ensures Inv(Release(s, a)) && Release(s, a) == MergePrev(AfterNext(Marked(s, a), a), a)
    ensures Release(s, a).start == s.start && Release(s, a).end == s.end
  {
    MarkedMeets(s, a);
    ReleaseMeets(s, a);
    if Mergeable(Marked(s, a).blocks, Next(Marked(s, a).blocks, a)) {
      AbsorbNextKeepsInvBut(Marked(s, a), a);
    }
  }

  /** The header that a call on user pointer p is about. */
  function Target(p: nat): set<nat> {
    if p < HEADER then {} else {p - HEADER}
  }

  lemma GrowLayout(s: State, a: nat, w: nat, size: nat)
    requires Inv(s) && a in Live(s) && Mergeable(s.blocks, Next(s.blocks, a)) && s.end < size
    requires s.blocks[a].words < w <= s.blocks[a].words + s.blocks[Next(s.blocks, a)].words
    ensures var n := Next(s.blocks, a);
      && n in s.list && InvBut(s, a)
      && Inv(Extend(s, a, w)) && Extend(s, a, w).start == s.start && Extend(s, a, w).end == s.end
      && (s.blocks[a].words + s.blocks[n].words + HEADER - w >= MIN_SPLIT ==>
            a + HEADER + w !in Live(s) && Addable(a + HEADER + w, Drop(s.list, IndexOf(s.list, n)), size))
      && (s.blocks[a].words + s.blocks[n].words + HEADER - w < MIN_SPLIT ==> Extend(s, a, w) == AbsorbNext(s, a))
  {
    var n := Next(s.blocks, a);
    ExtendMeets(s, a, w);
    AbsorbNextKeepsInvBut(s, a);
    AbsorbNextLive(s, a);
    if s.blocks[a].words + s.blocks[n].words + HEADER - w >= MIN_SPLIT {
      RestLayout(AbsorbNext(s, a), a, w, size);
    } else {
      assert Mark(AbsorbNext(s, a).blocks, a, false) == AbsorbNext(s, a).blocks;
    }
  }

  /** The memory after memcpy of n words. */
  function Copied(m: seq<int>, dst: nat, src: nat, n: nat): seq<int>
    requires dst + n <= |m| && src + n <= |m|
  {
    seq(|m|, i requires 0 <= i < |m| => if dst <= i < dst + n then m[src + i - dst] else m[i])
  }

  /** t is s after malloc returned q, and p is a block in use in s. */
  ghost predicate Allocated(s: State, t: State, p: nat, q: nat) {
    && Inv(s) && Inv(t) && t.end == s.end
    && HEADER <= p && p - HEADER in Live(s)
    && HEADER <= q && q - HEADER !in Live(s) && Live(t) == Live(s) + {q - HEADER}
    && KeepsLive(s, t, -1)
    && t.blocks[q - HEADER].words >= s.blocks[p - HEADER].words
  }

  /** The area at q begins with the given words. */
  predicate Holds(m: seq<int>, q: int, words: seq<int>) {
    0 <= q && q + |words| <= |m| && m[q..q + |words|] == words
  }

  ghost predicate BeforeCopy(m0: seq<int>, m: seq<int>, s: State, t: State, p: nat, q: nat) {
    && Allocated(s, t, p, q) && s.end < |m0| == |m|
    && Proper(Others(m0, s, {}), |m0|) && Intact(m, Others(m0, s, {}))
  }

  /** The area at q begins with p's words; all other areas are untouched. */
  ghost predicate CopiedAndFreed(m0: seq<int>, m: seq<int>, s: State, p: nat, q: nat) {
    && |m0| == |m| && Proper(Others(m0, s, Target(p)), |m0|) && Intact(m, Others(m0, s, Target(p)))
    && HEADER <= p && p - HEADER in s.blocks && Next(s.blocks, p - HEADER) <= |m0|
    && Holds(m, q, Words(m0, s.blocks, p - HEADER))
  }

  lemma MallocAllocates(s: State, p: nat, nBytes: nat)
    requires Inv(s) && Held(s, p) && p != NULL && 4 * s.blocks[p - HEADER].words < nBytes <= 0xFFFF_FFFC
    ensures forall a :: a in s.list ==> a in s.blocks
    ensures var (t, q) := Malloc(s, nBytes);
      && (q != NULL ==> Allocated(s, t, p, q))
      && (q != NULL ==> Inv(t) && UserArea(t, p) && Move(s, p, nBytes) == (Free(t, p), q))
      && (q == NULL ==> t == s && Move(s, p, nBytes) == (s, NULL))
  {
    hide InvBut;
    MallocMeets(s, nBytes);
    ListedAreBlocks(s);
    assert p - HEADER in Live(s);
  }

  lemma IntactForFewer(m: seq<int>, m0: seq<int>, s: State, targets: set<nat>)
    requires |m| == |m0| && Proper(Others(m0, s, {}), |m|) && Intact(m, Others(m0, s, {}))
    ensures Proper(Others(m0, s, targets), |m|) && Intact(m, Others(m0, s, targets))
  {
  }

  lemma AfterMalloc(m0: seq<int>, m1: seq<int>, s: State, t: State, p: nat, q: nat)
    requires Allocated(s, t, p, q) && s.end < |m0| == |m1|
    requires Proper(Others(m0, s, {}), |m0|) && Intact(m1, Others(m0, s, {}))
    ensures var n := s.blocks[p - HEADER].words;
      && HEADER <= p && HEADER <= q && q - HEADER in Live(t)
      && Held(t, p) && p != q && (q + n <= p || p + n <= q)
      && q + n <= Next(t.blocks, q - HEADER) <= t.end < |m1| && p + n <= t.end
      && Words(m1, s.blocks, p - HEADER) == Words(m0, s.blocks, p - HEADER)
  {
    var a, b := p - HEADER, q - HEADER;
    assert a in Live(t) && b in Live(t) && t.blocks[a] == s.blocks[a];
    assert Next(t.blocks, a) <= b || Next(t.blocks, b) <= a;
    assert Next(t.blocks, a) <= t.end && Next(t.blocks, b) <= t.end;
    assert Words(m1, s.blocks, a) == Words(m0, s.blocks, a);
    assert Next(s.blocks, a) == p + s.blocks[a].words;
  }

  /** Filling the user area of a block in use leaves the encoding alone. */
  lemma CopyStage(m: seq<int>, head: int, t: State, q: nat, p: nat, n: nat)
    requires Inv(t) && Stage(m, head, t, {}, Others(m, t, {}))
    requires HEADER <= q && q - HEADER in Live(t) && q + n <= Next(t.blocks, q - HEADER) && p + n <= |m|
    ensures Stage(Copied(m, q, p, n), head, t, {}, Others(Copied(m, q, p, n), t, {}))
  {
    var b, m' := q - HEADER, Copied(m, q, p, n);
    ListIsApart(t, |m|);
    assert forall x :: 0 <= x < q || q + n <= x < |m| ==> m'[x] == m[x];
    assert Next(t.blocks, b) >= q + n;
    forall a {:trigger SizeWord(t.blocks[a])} | a in t.blocks ensures m'[a + 1] == m[a + 1] {
      assert a == b || Next(t.blocks, a) <= b || Next(t.blocks, b) <= a;
    }
    forall a {:trigger Next(t.blocks, a)} | a in t.blocks ensures m'[Next(t.blocks, a)] == m[Next(t.blocks, a)] {
      assert a == b || Next(t.blocks, a) <= b || Next(t.blocks, b) <= a;
    }
    UserAreaIsOffLinks(t.start, t.end, t.blocks, t.list, b);
    forall i | 0 <= i < |t.list| ensures m'[t.list[i] + 2] == m[t.list[i] + 2] && m'[t.list[i] + 3]
          == m[t.list[i] + 3] {
      assert t.list[i] != b;
      assert Next(t.blocks, t.list[i]) <= b || Next(t.blocks, b) <= t.list[i];
    }
    assert Links(m', t.list);
  }

  /** The copy lands in q and nowhere else, so it outlives the free of p ... */
  lemma CopySurvives(m0: seq<int>, m1: seq<int>, m2: seq<int>, m3: seq<int>, s: State, t: State, p: nat, q: nat, n: nat)
    requires Allocated(s, t, p, q) && s.end < |m0| == |m1| == |m2| == |m3|
    requires n == s.blocks[p - HEADER].words && q + n <= |m0| && p + n <= |m0| && m2 == Copied(m1, q, p, n)
    requires Words(m1, s.blocks, p - HEADER) == Words(m0, s.blocks, p - HEADER)
    requires Proper(Others(m2, t, {p - HEADER}), |m0|) && Intact(m3, Others(m2, t, {p - HEADER}))
    ensures Holds(m3, q, Words(m0, s.blocks, p - HEADER))
  {
    hide InvBut, KeepsLive;
    var a, c := p - HEADER, q - HEADER;
    assert Words(m3, t.blocks, c) == Words(m2, t.blocks, c);
    forall k | 0 <= k < n ensures m3[q + k] == Words(m0, s.blocks, a)[k] {
      assert Words(m3, t.blocks, c)[k] == m3[q + k] && Words(m2, t.blocks, c)[k] == m2[q + k];
      assert Words(m1, s.blocks, a)[k] == m1[p + k];
    }
  }

  /** ... and the areas of all other blocks are as malloc left them. */
  lemma OthersSurvive(m0: seq<int>, m1: seq<int>, m2: seq<int>, m3: seq<int>, s: State, t: State, p: nat, q: nat,
                      n: nat)
    requires Allocated(s, t, p, q) && s.end < |m0| == |m1| == |m2| == |m3|
    requires n == s.blocks[p - HEADER].words && q + n <= |m0| && p + n <= |m0| && m2 == Copied(m1, q, p, n)
    requires Proper(Others(m0, s, {}), |m0|) && Intact(m1, Others(m0, s, {}))
    requires Proper(Others(m2, t, {p - HEADER}), |m0|) && Intact(m3, Others(m2, t, {p - HEADER}))
    ensures Proper(Others(m0, s, {p - HEADER}), |m0|) && Intact(m3, Others(m0, s, {p - HEADER}))
  {
    hide Windows, Lists, Coalesced;
    var c, g := q - HEADER, Others(m0, s, {p - HEADER});
    forall b {:trigger Words(m3, s.blocks, b)} | b in g.live ensures Words(m3, s.blocks, b) == Words(m0, s.blocks, b) {
      assert b in Live(t) && t.blocks[b] == s.blocks[b] && Next(t.blocks, b) == Next(s.blocks, b);
      assert Next(t.blocks, b) <= c || Next(t.blocks, c) <= b;
      assert Words(m3, t.blocks, b) == Words(m2, t.blocks, b);
      forall k | 0 <= k < s.blocks[b].words ensures Words(m2, s.blocks, b)[k] == Words(m1, s.blocks, b)[k] {
        assert m2[b + HEADER + k] == m1[b + HEADER + k];
      }
      assert Words(m2, s.blocks, b) == Words(m1, s.blocks, b) == Words(m0, s.blocks, b);
    }
  }

  lemma AfterFree(m0: seq<int>, m1: seq<int>, m2: seq<int>, m3: seq<int>, s: State, t: State, p: nat, q: nat, n: nat)
    requires BeforeCopy(m0, m1, s, t, p, q) && |m2| == |m3| == |m1|
    requires n == s.blocks[p - HEADER].words && q + n <= |m0| && p + n <= |m0| && m2 == Copied(m1, q, p, n)
    requires Words(m1, s.blocks, p - HEADER) == Words(m0, s.blocks, p - HEADER)
    requires Proper(Others(m2, t, Target(p)), |m0|) && Intact(m3, Others(m2, t, Target(p)))
    ensures CopiedAndFreed(m0, m3, s, p, q)
  {
    assert Target(p) == {p - HEADER};
    CopySurvives(m0, m1, m2, m3, s, t, p, q, n);
    OthersSurvive(m0, m1, m2, m3, s, t, p, q, n);
  }

  lemma KeptInPlace(m0: seq<int>, m: seq<int>, s: State, p: nat)
    requires HEADER <= p && p - HEADER in Live(s) && |m| == |m0|
    requires Proper(Others(m0, s, {}), |m|) && Intact(m, Others(m0, s, {}))
    ensures Intact(m, Others(m0, s, Target(p)))
    ensures Holds(m, p, Words(m0, s.blocks, p - HEADER))
  {
    assert Words(m, s.blocks, p - HEADER) == Words(m0, s.blocks, p - HEADER);
  }

  lemma NothingMoved(m: seq<int>, s: State, p: nat)
    requires Inv(s) && s.end < |m| && HEADER <= p && p - HEADER in Live(s)
    ensures Proper(Others(m, s, {}), |m|) && Proper(Others(m, s, Target(p)), |m|)
    ensures Intact(m, Others(m, s, {}))
  {
  }

  lemma MoveAligned(s: State, p: nat, nBytes: nat)
    requires Inv(s) && Held(s, p) && p != NULL && nBytes <= 0xFFFF_FFFC
    ensures 4 * AlignedWords(nBytes) <= 0xFFFF_FFFC && AlignedWords(4 * AlignedWords(nBytes)) == AlignedWords(nBytes)
    ensures Move(s, p, nBytes) == Move(s, p, 4 * AlignedWords(nBytes))
  {
    assert AlignedWords(4 * AlignedWords(nBytes)) == AlignedWords(nBytes);
    MallocMeets(s, nBytes);
    assert Malloc(s, nBytes) == Malloc(s, 4 * AlignedWords(nBytes));
  }

  /** The branches of realloc for a block in use, as calls on the aligned request. */
  lemma ReallocBranches(s: State, p: nat, nBytes: nat)
    requires Inv(s) && Held(s, p) && p != NULL && 0 < nBytes <= 0xFFFF_FFFC && s.list != []
    ensures p - HEADER in Live(s)
    ensures var (a, w) := (p - HEADER, AlignedWords(nBytes));
      && nBytes <= 4 * w <= 0xFFFF_FFFC
      && (nBytes <= 4 * s.blocks[a].words ==> HeapModel.Realloc(s, p, nBytes) == (s, p))
      && (nBytes > 4 * s.blocks[a].words ==>
            && s.blocks[a].words < w
            && (Expandable(s, a, w) ==>
                  Next(s.blocks, a) in s.list && HeapModel.Realloc(s, p, nBytes) == (Extend(s, a, w), p))
            && (!Expandable(s, a, w) ==> HeapModel.Realloc(s, p, nBytes) == Move(s, p, 4 * w)))
  {
    var a, w := p - HEADER, AlignedWords(nBytes);
    MoveAligned(s, p, nBytes);
    if Expandable(s, a, w) {
      assert Next(s.blocks, a) in s.list;
    }
    hide Inv, Move, Extend;
  }

  // ---------------------------------------------------------------- HeapInit

  function Round16(x: nat): nat { (x + 15) / 16 * 16 }

  function Round64K(x: nat): nat { (x + 65535) / 65536 * 65536 }

  /** Bytes between the rounded address and the first 64 KB boundary. */
  function Lead(address: nat): nat {
    Round64K(Round16(address)) - Round16(address)
  }

  /** HeapStart, and HeapStart + HeapSize: stretches that cannot hold a block are left out. */
  function RangeStart(address: nat): nat {
    if Lead(address) < 20 then Round64K(Round16(address)) else Round16(address)
  }

  function RangeEnd(address: nat, size: nat): int {
    var tail := (size - Lead(address)) % 65536;
    Round16(address) + size - (if tail < 20 then tail else 0)
  }

  /**
   The heap begins at the first multiple of 16, x, or at the first 64 KB boundary behind it, y, if
   fewer than 20 bytes lie between; and a stretch of fewer than 20 bytes behind the last boundary is left out.
   */
  lemma RangeIs(address: nat, size: nat, x: nat, y: nat)
    requires x % 16 == 0 && address <= x < address + 16 && y % 65536 == 0 && x <= y < x + 65536
    ensures RangeStart(address) == if y - x < 20 then y else x
    ensures var tail := (size - (y - x)) % 65536; RangeEnd(address, size) == x + size - if tail < 20 then tail else 0
  {
    hide Round16, Round64K;
    FirstMultipleOf16(address, x);
    FirstMultipleOf64K(x, y);
  }

  lemma FirstMultipleOf16(address: nat, x: nat)
    requires x % 16 == 0 && address <= x < address + 16
    ensures Round16(address) == x
  {
    assert x == 16 * (x / 16);
  }

  lemma FirstMultipleOf64K(x: nat, y: nat)
    requires y % 65536 == 0 && x <= y < x + 65536
    ensures Round64K(x) == y
  {
    assert y == 65536 * (y / 65536);
  }

  /** The heap ends inside the area exactly when no byte was skipped, or a short stretch at the end makes up for it. */
  lemma RangeEndsInsideIff(address: nat, size: nat)
    ensures RangeEnd(address, size) <= address + size <==>
              address % 16 == 0 || 16 - address % 16 <= (size - Lead(address)) % 65536 < 20
  {
    hide Lead;
  }

  /** The area [8, 0x30108) in which it does not. */
  lemma HeapMayOverrunItsArea()
    ensures RangeEnd(8, 0x3_0100) == 8 + 0x3_0100 + 8
  {
  }

  lemma SumOfWindows(x: nat, y: nat)
    requires x % 65536 == y % 65536 == 0
    ensures (x + y) % 65536 == 0 && (x + y) % 4 == 0
  {
    assert x == 65536 * (x / 65536) && y == 65536 * (y / 65536);
    assert x + y == 65536 * (x / 65536 + y / 65536);
    WholeWindows(x / 65536 + y / 65536);
    FourthOf(16384 * (x / 65536 + y / 65536));
  }

  lemma WholeWindows(q: nat)
    ensures 65536 * q % 65536 == 0
  {
  }

  lemma ExactEnd(a: nat, x: nat)
    requires x % 4 == 0 && 4 * (a + 1) <= x < 4 * (a + 2)
    ensures 4 * (a + 1) == x
  {
  }

  lemma OneWindowLess(x: nat)
    requires 0 < x && x % 65536 == 0
    ensures 65536 <= x && (x - 65536) % 65536 == 0
  {
  }

  /** A block that begins on a 64 KB boundary and spans `length` bytes. */
  lemma WindowBlock(x: nat, length: nat)
    requires x % 65536 == 0 && 0 < x && 20 <= length <= 65536
    ensures var a := x / 4 - 1;
      && Opens(a) && a + HEADER + (length - 16) / 4 == (x + length) / 4 - 1
      && OneWindow(a, (x + length) / 4 - 1)
  {
    var w, l := x / 65536, length / 4;
    assert x == 65536 * w && x / 4 == 0x4000 * w;
    assert (x + length) / 4 == 0x4000 * w + l && (length - 16) / 4 == l - 4;
    WindowOf(w, l);
  }

  lemma WindowOf(w: nat, l: nat)
    requires 0 < w && 5 <= l <= 0x4000
    ensures Opens(0x4000 * w - 1) && OneWindow(0x4000 * w - 1, 0x4000 * w + l - 1)
  {
  }

  /** The block in front of the first boundary x. */
  lemma LeadBlock(addr: nat, x: nat)
    requires x % 65536 == 0 && addr % 16 == 0 && 16 <= addr && 20 <= x - addr < 65536
    ensures var a := addr / 4 - 1;
      && 4 * (a + 1) == addr && !Opens(a) && a + HEADER + (x - addr - 16) / 4 == x / 4 - 1
      && OneWindow(a, x / 4 - 1) && (x - addr - 16) % 4 == 0 && 0 < a
  {
    var w, q := x / 65536, addr / 16;
    assert x == 65536 * w && addr == 16 * q;
    var d := 16384 * w - 4 * q;
    assert x - addr == 4 * d && addr == 4 * (16384 * w - d);
    FourthOf(16384 * w - d);
    FourthOf(16384 * w);
    FourthOf(d - 4);
    LeadOf(w, d);
  }

  lemma FourthOf(n: nat)
    ensures 4 * n / 4 == n && 4 * n % 4 == 0
  {
  }

  lemma LeadOf(w: nat, d: nat)
    requires 5 <= d < 0x4000 && d < 0x4000 * w
    ensures !Opens(0x4000 * w - d - 1) && OneWindow(0x4000 * w - d - 1, 0x4000 * w - 1)
  {
    assert 0x4000 * w - d == 0x4000 * (w - 1) + (0x4000 - d);
    assert (0x4000 * w - d) / 0x4000 == w - 1 && (0x4000 * w - 1) / 0x4000 == w - 1;
  }

  predicate Ascending(list: seq<nat>) {
    forall i, j :: 0 <= i < j < |list| ==> list[i] < list[j]
  }

  lemma RangeLayout(address: nat, size: nat)
    requires 0 < address && Lead(address) <= size
    ensures var (addr, lead) := (Round16(address), Lead(address));
      && addr % 16 == 0 && (addr + lead) % 65536 == 0 && 16 <= addr && 0 <= lead < 65536 && lead % 16 == 0
      && addr + lead == Round64K(addr)
      && (size - lead - (size - lead) % 65536) % 65536 == 0
      && 0 <= RangeEnd(address, size)
  {
    Boundaries(address);
    Remainders(size - Lead(address));
  }

  lemma Boundaries(address: nat)
    requires 0 < address
    ensures var addr, x := Round16(address), Round64K(Round16(address));
      && addr % 16 == 0 && 16 <= addr && x % 65536 == 0 && x % 16 == 0 && addr <= x < addr + 65536
      && (x - addr) % 16 == 0
  {
    hide Round16, Round64K;
    var addr, x := Round16(address), Round64K(Round16(address));
    var q := Round16Is(address);
    var w := Round64KIs(addr);
    Multiples(q);
    Multiples(4096 * w);
    Multiples(4096 * w - q);
  }

  lemma Round16Is(x: nat) returns (q: nat)
    ensures Round16(x) == 16 * q && x <= 16 * q < x + 16
  {
    q := (x + 15) / 16;
  }

  lemma Round64KIs(x: nat) returns (w: nat)
    ensures Round64K(x) == 65536 * w && x <= 65536 * w < x + 65536 && 65536 * w % 65536 == 0
  {
    w := (x + 65535) / 65536;
  }

  lemma Multiples(q: int)
    ensures 16 * q % 16 == 0
  {
  }

  lemma Remainders(n: nat)
    ensures (n - n % 65536) % 65536 == 0
  {
    assert n - n % 65536 == 65536 * (n / 65536);
  }

  lemma PrependInv(s: State, a: nat, b: Block)
    requires Inv(s) && Live(s) == {} && Ascending(s.list)
    requires 0 < a && a + HEADER + b.words == s.start && b.free
    requires b.aligned == Opens(a) && OneWindow(a, s.start) && (s.start < s.end ==> Opens(s.start))
    ensures var u := Linked(State(a, s.end, s.blocks[a := b], s.list), a);
      && Inv(u) && Live(u) == {} && Ascending(u.list) && a !in s.blocks
      && Next(u.blocks, a) == s.start
      && forall x {:trigger Next(u.blocks, x)} :: x in s.blocks ==> Next(u.blocks, x) == Next(s.blocks, x)
  {
    var t := State(a, s.end, s.blocks[a := b], s.list);
    assert a !in s.blocks;
    assert Next(t.blocks, a) == s.start;
    forall x {:trigger Next(t.blocks, x)} | x in s.blocks ensures Next(t.blocks, x) == Next(s.blocks, x) {}
    forall i | 0 <= i < |s.list| ensures a < s.list[i] { assert s.list[i] in s.list; }
    LinkedKeepsDistinct(t, a);
    assert Tiles(a, s.end, t.blocks);
    assert Windows(t.blocks);
    forall x {:trigger Next(t.blocks, x)} | x in t.blocks && t.blocks[x].free
      ensures !Mergeable(t.blocks, Next(t.blocks, x))
    {
      if x == a {
        assert Mergeable(t.blocks, s.start) ==> !Opens(s.start);
      }
    }
  }

  lemma PrependStage(m: seq<int>, head: int, s: State, a: nat, b: Block, g: Clients)
    requires Inv(s) && Stage(m, head, s, {}, g) && g.live == {}
    requires 0 < a && a + HEADER + b.words == s.start && a !in s.blocks
    requires var blocks := s.blocks[a := b];
      && Tiles(a, s.end, blocks) && Next(blocks, a) == s.start
      && forall x {:trigger Next(blocks, x)} :: x in s.blocks ==> Next(blocks, x) == Next(s.blocks, x)
    ensures Stage(m, head, State(a, s.end, s.blocks[a := b], s.list), {a}, g) && Addable(a, s.list, |m|)
  {
    ListIsApart(s, |m|);
    forall i | 0 <= i < |s.list| ensures a + HEADER <= s.list[i] { assert s.list[i] in s.list; }
  }

  class Heap {
    const mem: array<int>
    const heapStart: nat
    const heapSize: nat
    var heapList: int
    ghost var state: State

    /** HeapStart and HeapSize describe the words [start, end). */
    ghost predicate Ranged(start: nat, end: nat) {
      heapStart == 4 * (start + 1) && 4 * (end + 1) <= heapStart + heapSize < 4 * (end + 2)
    }

    /** The operation has come to t, with the size words of `ex` still to be written. */
    ghost predicate At(t: State, ex: set<nat>, g: Clients)
      reads `heapList, mem
    {
      Stage(mem[..], heapList, t, ex, g)
    }

    /** The static variables and the memory encode `state`. */
    ghost predicate Valid()
      reads this, mem
    {
      Inv(state) && Ranged(state.start, state.end) && At(state, {}, Others(mem[..], state, {}))
    }

    /**
     HeapInit: carves [address, address + size), after rounding address up to 16 bytes, into
     free blocks at the 64 KB boundaries, last block first.
     */
    constructor HeapInit(memory: array<int>, address: nat, size: nat)
      requires 0 < address && Lead(address) <= size
      requires RangeEnd(address, size) / 4 < memory.Length
      requires var fence := memory[RangeEnd(address, size) / 4]; !(FreeBit(fence) && !AlignedBit(fence))
      modifies memory
      ensures mem == memory && heapStart == RangeStart(address) && heapStart + heapSize == RangeEnd(address, size)
      ensures Valid() && Live(state) == {} && Ascending(state.list)
    {
      var addr := Round16(address);
      var aligned := Round64K(addr);
      var before := aligned - addr;
      var after := (size - before) % 65536;
      var rest := size - before - after;
      if before < 16 + 4 { before := 0; }
      if after < 16 + 4 { after := 0; }
      RangeLayout(address, size);
      mem := memory;
      heapList := NULL;
      heapStart := aligned - before;
      heapSize := before + rest + after;
      ghost var end := (aligned + rest + after) / 4 - 1;
      state := State(end, end, map[], []);
      new;
      Populate(addr, aligned, before, rest, after);
    }

    /** HeapInit's block-making steps, on the still empty heap that ends at state.end. */
    method Populate(addr: nat, aligned: nat, before: nat, size: nat, after: nat)
      requires addr % 16 == aligned % 65536 == size % 65536 == 0 && 16 <= addr
      requires before == 0 || (20 <= before < 65536 && aligned == addr + before)
      requires after == 0 || 20 <= after < 65536
      requires 0 < aligned && state == State(state.end, state.end, map[], []) && heapList == NULL
      requires 4 * (state.end + 1) <= aligned + size + after < 4 * (state.end + 2)
      requires state.end + 1 < mem.Length && !(FreeBit(mem[state.end + 1]) && !AlignedBit(mem[state.end + 1]))
      requires heapStart == aligned - before && heapStart + heapSize == aligned + size + after
      modifies mem, `heapList, `state
      ensures Valid() && Live(state) == {} && Ascending(state.list)
    {
      hide *;
      ghost var g := Clients(mem[..], map[], {});
      EmptyGrows(g);
      SumOfWindows(aligned, size);
      if after > 0 {
        PrependWindow(aligned + size, after, g);
      }
      ExactEnd(state.start, aligned + size);
      PrependWindows(aligned, size, g);
      if before > 0 {
        PrependLead(addr, aligned, before, g);
      } else {
        GrowingIsReady(g);
      }
      Grown(g);
    }

    /** The block in front of the first 64 KB boundary. */
    method PrependLead(addr: nat, aligned: nat, before: nat, ghost g: Clients)
      requires addr % 16 == 0 && aligned % 65536 == 0 && 16 <= addr && 20 <= before < 65536 && aligned == addr + before
      requires Growing(g) && 4 * (state.start + 1) == aligned
      modifies mem, `heapList, `state
      ensures Ready(g) && 4 * (state.start + 1) == addr && state.end == old(state.end)
    {
      hide Ready, Growing, Inv, Stage;
      LeadBlock(addr, aligned);
      Prepend(addr / 4 - 1, before - 16, false, g);
    }

    /** The loop that makes the 64 KB blocks, last one first. */
    method PrependWindows(aligned: nat, size: nat, ghost g: Clients)
      requires aligned % 65536 == 0 && size % 65536 == 0 && 0 < aligned
      requires Growing(g) && 4 * (state.start + 1) == aligned + size
      modifies mem, `heapList, `state
      ensures Growing(g) && 4 * (state.start + 1) == aligned && state.end == old(state.end)
    {
      var rest := size;
      hide Growing;
      while rest > 0
        invariant 0 <= rest && rest % 65536 == 0
        invariant state.end == old(state.end) && 4 * (state.start + 1) == aligned + rest
        invariant Growing(g)
      {
        OneWindowLess(rest);
        rest := rest - 65536;
        SumOfWindows(aligned, rest);
        PrependWindow(aligned + rest, 65536, g);
      }
    }

    lemma GrowingIsReady(g: Clients)
      requires Growing(g)
      ensures Ready(g)
    {
      hide Ready;
    }

    lemma EmptyGrows(g: Clients)
      requires 0 < state.end && state == State(state.end, state.end, map[], []) && heapList == NULL
      requires state.end + 1 < mem.Length && !(FreeBit(mem[state.end + 1]) && !AlignedBit(mem[state.end + 1]))
      requires g == Clients(mem[..], map[], {})
      ensures Growing(g)
    {
    }

    lemma Grown(g: Clients)
      requires Ready(g) && Ranged(state.start, state.end)
      ensures Valid() && Live(state) == {} && Ascending(state.list)
    {
      StageStarts(mem[..], heapList, state, g, {});
    }

    method PrependWindow(x: nat, length: nat, ghost g: Clients)
      requires x % 65536 == 0 && 0 < x && 20 <= length <= 65536
      requires Growing(g) && 4 * (state.start + 1) <= x + length < 4 * (state.start + 2)
      modifies mem, `heapList, `state
      ensures Growing(g) && 4 * (state.start + 1) == x && state.end == old(state.end)
    {
      hide Ready, Opens, OneWindow;
      WindowBlock(x, length);
      Prepend(x / 4 - 1, length - 16, true, g);
    }

    /** The blocks made so far are a heap of their own, and free. */
    ghost predicate Ready(g: Clients)
      reads this, mem
    {
      Inv(state) && At(state, {}, g) && Live(state) == {} && g.live == {} && Ascending(state.list)
    }

    /** Between the steps of HeapInit another block can be put in front. */
    ghost predicate Growing(g: Clients)
      reads this, mem
    {
      Ready(g) && (state.start < state.end ==> Opens(state.start))
    }

    /** One of HeapInit's blocks: set its size, copy it behind the block, link it. */
    method Prepend(block: nat, size: nat, aligned: bool, ghost g: Clients)
      requires Growing(g) && 0 < block && block + HEADER + size / 4 == state.start
      requires aligned == Opens(block) && OneWindow(block, state.start) && (!aligned ==> size % 4 == 0)
      modifies mem, `heapList, `state
      ensures Ready(g) && state.start == block && state.end == old(state.end)
    {
      ghost var s := state;
      ghost var t := State(block, s.end, s.blocks[block := Block(size / 4, true, aligned)], s.list);
      PrependInv(s, block, t.blocks[block]);
      PrependStage(mem[..], heapList, s, block, t.blocks[block], g);
      state := Linked(t, block);
      hide Stage, Inv, Addable;
      SetSize(block, if aligned then size - size % 4 + 3 else size + 1, t, {block}, g);
      assert {block} - {block} == {};
      Link(block, t, {}, g);
    }

    /** The words of the area in use at p. */
    ghost function Content(p: nat): seq<int>
      requires Valid() && Held(state, p) && p != NULL
      reads this, mem
    {
      assert Next(state.blocks, p - HEADER) <= state.end;
      Words(mem[..], state.blocks, p - HEADER)
    }

    // HASNEXT and HASPREV; both compare byte addresses with the heap range
    predicate HasNext(block: nat) { 4 * block + 4 <= heapStart + heapSize }

    predicate HasPrev(block: nat) { 4 * block + 4 > heapStart }

    method Link(block: nat, ghost t: State, ghost ex: set<nat>, ghost g: Clients)
      requires At(t, ex, g) && Addable(block, t.list, mem.Length) && block in t.blocks && block !in g.live
      modifies mem, `heapList
      ensures At(Linked(t, block), ex, g)
    {
      LinkStage(mem[..], t, block, ex, g);
      mem[block + 2] := LIST_CELL;
      mem[block + 3] := heapList;
      if heapList != NULL {
        mem[heapList + 2] := block + 3;
      }
      heapList := block;
      assert mem[..] == LinkWrites(old(mem[..]), t.list, block);
    }

    method Unlink(block: nat, ghost i: nat, ghost t: State, ghost ex: set<nat>, ghost g: Clients)
      requires At(t, ex, g) && i < |t.list| && t.list[i] == block
      modifies mem, `heapList
      ensures At(t.(list := Drop(t.list, i)), ex, g)
    {
      UnlinkStage(mem[..], t, i, ex, g);
      var prev, next := mem[block + 2], mem[block + 3];
      assert prev == PrevLink(t.list, i) && next == NextLink(t.list, i);
      if prev == LIST_CELL {
        heapList := next;
      } else {
        mem[prev] := next;
      }
      if next != NULL {
        mem[next + 2] := prev;
      }
      assert mem[..] == UnlinkWrites(old(mem[..]), t.list, i);
    }

    /** `Block->Size = word; NEXT(Block)->PrevSize = Block->Size`. */
    method SetSize(block: nat, word: int, ghost t: State, ghost ex: set<nat>, ghost g: Clients)
      requires At(t, ex, g) && block in t.blocks && word == SizeWord(t.blocks[block])
      modifies mem
      ensures At(t, ex - {block}, g)
    {
      SizeStage(mem[..], heapList, t, block, ex, g);
      SizeWordBits(t.blocks[block]);
      mem[block + 1] := word;
      var next := block + SizeOf(mem[block + 1]) / 4 + HEADER;
      mem[next] := mem[block + 1];
      assert mem[..] == SizeWrites(old(mem[..]), block, Next(t.blocks, block), word);
    }

    /**
     The splicing code that malloc and realloc share: block, which in t spans nBytes and
     remainder together, keeps nBytes; the rest becomes a free block.
     */
    method Splice(block: nat, nBytes: nat, remainder: nat, ghost t: State, ghost g: Clients)
      requires At(t, {block}, g) && block in t.blocks
      requires nBytes % 4 == 0 && remainder >= 4 * MIN_SPLIT && nBytes + remainder == 4 * t.blocks[block].words
      requires block in g.live ==> Next(g.first, block) <= block + HEADER + nBytes / 4
      requires block + 1 < mem.Length && AlignedBit(mem[block + 1]) == t.blocks[block].aligned
      requires block + HEADER + nBytes / 4 !in g.live && Addable(block + HEADER + nBytes / 4, t.list, mem.Length)
      modifies mem, `heapList
      ensures At(Linked(t.(blocks := Split(t.blocks, block, nBytes / 4)), block + HEADER + nBytes / 4), {}, g)
    {
      hide Stage, Addable;
      ghost var u := t.(blocks := Split(t.blocks, block, nBytes / 4));
      var newBlock := block + nBytes / 4 + HEADER;
      SplitStage(mem[..], heapList, t, block, nBytes / 4, g);
      SetSize(block, nBytes + (if AlignedBit(mem[block + 1]) then 2 else 0), u, {block, newBlock}, g);
      assert {block, newBlock} - {block} == {newBlock};
      SetSize(newBlock, remainder - 16 + 1, u, {newBlock}, g);
      assert {newBlock} - {newBlock} == {};
      Link(newBlock, u, {}, g);
    }

    /** malloc's two ways of using the unlinked block: split off the rest, or clear the free bit. */
    method Cut(block: nat, nBytes: nat, ghost t: State, ghost g: Clients)
      requires At(t, {}, g) && Windows(t.blocks) && block in t.blocks && t.blocks[block].free && block !in g.live
      requires nBytes % 4 == 0 && nBytes <= 4 * t.blocks[block].words
      requires t.blocks[block].words - nBytes / 4 >= MIN_SPLIT ==>
        block + HEADER + nBytes / 4 !in g.live && Addable(block + HEADER + nBytes / 4, t.list, mem.Length)
      modifies mem, `heapList
      ensures At(Occupy(t, block, nBytes / 4), {}, g)
    {
      hide Stage, Addable;
      HeaderReading(mem[..], heapList, t, {}, block, g);
      StageWeakens(mem[..], heapList, t, block, g);
      var remainder := SizeOf(mem[block + 1]) - nBytes;
      if remainder >= 4 + 16 {
        Splice(block, nBytes, remainder, t, g);
      } else {
        MarkStage(mem[..], heapList, t, block, false, g);
        SetSize(block, mem[block + 1] - 1, t.(blocks := Mark(t.blocks, block, false)), {block}, g);
        assert {block} - {block} == {};
      }
    }

    /** What malloc does with the block it found at position i of the free list. */
    method Take(block: nat, nBytes: nat, ghost i: nat)
      requires Valid() && i < |state.list| && state.list[i] == block && block in state.blocks
      requires nBytes % 4 == 0 && nBytes <= 4 * state.blocks[block].words
      modifies mem, `heapList, `state
      ensures Valid() && state == Occupy(Unlinked(old(state), block), block, nBytes / 4)
      ensures Intact(mem[..], old(Others(mem[..], state, {})))
    {
      ghost var s, g := state, Others(mem[..], state, {});
      ghost var t := s.(list := Drop(s.list, i));
      TakeLayout(s, i, nBytes / 4, mem.Length);
      hide Inv, Stage, Addable, Intact, Proper, Windows;
      state := Occupy(t, block, nBytes / 4);
      Unlink(block, i, s, {}, g);
      Cut(block, nBytes, t, g);
      StageStarts(mem[..], heapList, state, g, {});
    }

    /** malloc's walk through the linked list. */
    method Find(n: nat) returns (block: int, ghost i: nat)
      requires Valid() && n % 4 == 0
      requires forall a :: a in state.list ==> a in state.blocks
      ensures i == FirstFit(state.blocks, state.list, n / 4)
      ensures block == (if i < |state.list| then state.list[i] else NULL)
    {
      block, i := heapList, 0;
      ghost var list, w := state.list, n / 4;
      assert forall j :: 0 <= j < |list| ==> list[j] in list;
      while block != NULL && mem[block + 1] < n
        invariant 0 <= i <= |list| && block == (if i < |list| then list[i] else NULL)
        invariant forall j :: 0 <= j < i ==> state.blocks[list[j]].words < w
        decreases |list| - i
      {
        SizeWordBits(state.blocks[block]);
        assert mem[block + 1] == SizeWord(state.blocks[block]);
        assert mem[block + 3] == NextLink(list, i);
        block := mem[block + 3];
        i := i + 1;
      }
      if block != NULL {
        SizeWordBits(state.blocks[block]);
        assert mem[block + 1] == SizeWord(state.blocks[block]);
      }
      FirstFitIs(state.blocks, list, w, i);
    }

    method Malloc(nBytes: nat) returns (p: int)
      requires Valid()
      modifies mem, `heapList, `state
      ensures Valid() && (state, p) == HeapModel.Malloc(old(state), nBytes)
      ensures Intact(mem[..], old(Others(mem[..], state, {})))
    {
      hide Inv, Stage, Intact, Proper, Ranged, FirstFit, Occupy, Unlinked, AlignedWords, Others;
      ghost var s := state;
      ListedBlocks(s);
      StageStarts(mem[..], heapList, s, Others(mem[..], s, {}), {});
      var block, i := Find(4 * AlignedWords(nBytes));
      if block == NULL {
        return NULL;
      }
      Take(block, 4 * AlignedWords(nBytes), i);
      return block + HEADER;
    }

    /** `Unlink(Next)`, then block grows over it; the word written keeps block's own flag bits. */
    method SwallowNext(block: nat, next: nat, ghost t: State, ghost g: Clients)
      requires At(t, {}, g) && InvBut(t, block) && block in t.blocks
      requires next == Next(t.blocks, block) && Mergeable(t.blocks, next)
      modifies mem, `heapList
      ensures next in t.list && At(AbsorbNext(t, block), {}, g)
    {
      hide Stage, InvBut, ListsOutside;
      SwallowLayout(mem[..], heapList, t, block, g);
      ghost var i := IndexOf(t.list, next);
      Unlink(next, i, t, {}, g);
      ghost var u := t.(list := Drop(t.list, i));
      HeaderReading(mem[..], heapList, u, {}, next, g);
      HeaderReading(mem[..], heapList, u, {}, block, g);
      AbsorbStage(mem[..], heapList, u, block, {}, g);
      SetSize(block, mem[block + 1] + SizeOf(mem[next + 1]) + 16, AbsorbNext(t, block), {} + {block}, g);
      assert {} + {block} - {block} == {};
    }

    /** free's merge with the succeeding block. */
    method MergeWithNext(block: nat, ghost t: State, ghost g: Clients)
      requires At(t, {}, g) && Ranged(t.start, t.end) && InvBut(t, block) && block in t.blocks
      requires block in g.live ==> block in g.first && Next(g.first, block) <= Next(t.blocks, block)
      modifies mem, `heapList
      ensures Mergeable(t.blocks, Next(t.blocks, block)) ==> Next(t.blocks, block) in t.list
      ensures At(if Mergeable(t.blocks, Next(t.blocks, block)) then AbsorbNext(t, block) else t, {}, g)
    {
      assert Next(t.blocks, block) <= t.end;
      if HasNext(block) {
        SizeWordBits(t.blocks[block]);
        assert mem[block + 1] == SizeWord(t.blocks[block]);
        var next := block + SizeOf(mem[block + 1]) / 4 + HEADER;
        if next in t.blocks {
          SizeWordBits(t.blocks[next]);
          assert mem[next + 1] == SizeWord(t.blocks[next]);
        }
        if FreeBit(mem[next + 1]) && !AlignedBit(mem[next + 1]) {
          SwallowNext(block, next, t, g);
        }
      }
    }

    /** `Unlink(Prev)`, then Prev grows over block and is linked again. */
    method SwallowedByPrev(prev: nat, block: nat, ghost t: State, ghost g: Clients)
      requires At(t, {}, g) && InvBut(t, block) && block in t.blocks && block !in g.live
      requires prev in t.blocks && t.blocks[prev].free && Next(t.blocks, prev) == block && !t.blocks[block].aligned
      modifies mem, `heapList
      ensures At(MergePrev(t, block), {}, g)
    {
      hide Stage, InvBut, ListsOutside, Addable;
      StageLists(mem[..], heapList, t, g);
      PrevLayout(t, block, prev, mem.Length);
      ghost var i := IndexOf(t.list, prev);
      ghost var u := t.(list := Drop(t.list, i));
      assert t.list[i] !in g.live;
      Unlink(prev, i, t, {}, g);
      HeaderReading(mem[..], heapList, u, {}, prev, g);
      HeaderReading(mem[..], heapList, u, {}, block, g);
      AbsorbStage(mem[..], heapList, u, prev, {}, g);
      ghost var v := u.(blocks := Absorb(t.blocks, prev));
      SetSize(prev, mem[prev + 1] + SizeOf(mem[block + 1]) + 16, v, {} + {prev}, g);
      assert {} + {prev} - {prev} == {};
      Link(prev, v, {}, g);
    }

    /** free's merge with the preceding block, and the final Link. */
    method MergeWithPrev(block: nat, ghost t: State, ghost g: Clients)
      requires At(t, {}, g) && Ranged(t.start, t.end) && InvBut(t, block) && block in t.blocks && block !in g.live
      modifies mem, `heapList
      ensures At(MergePrev(t, block), {}, g)
    {
      hide Stage, InvBut, Addable, MergePrev, LeftPartner;
      HeaderReading(mem[..], heapList, t, {}, block, g);
      AddableLayout(t, block, mem.Length);
      if t.start == block || t.blocks[block].aligned {
        NoPartner(t, block);
      }
      if HasPrev(block) && !AlignedBit(mem[block + 1]) {
        ghost var p := PrevReading(mem[..], heapList, t, block, g);
        var prev := block - SizeOf(mem[block]) / 4 - HEADER;
        if FreeBit(mem[prev + 1]) {
          SwallowedByPrev(prev, block, t, g);
          return;
        }
      }
      Link(block, t, {}, g);
    }

    /** `Block->Size |= BLOCK_FREE; NEXT(Block)->PrevSize |= BLOCK_FREE`. */
    method MarkFree(block: nat, ghost s: State, ghost g: Clients)
      requires At(s, {}, g) && Windows(s.blocks) && block in s.blocks && !s.blocks[block].free
      modifies mem
      ensures At(Marked(s, block), {}, g)
    {
      hide Stage, Windows;
      HeaderReading(mem[..], heapList, s, {}, block, g);
      MarkStage(mem[..], heapList, s, block, true, g);
      SetSize(block, mem[block + 1] + 1, Marked(s, block), {block}, g);
      assert {block} - {block} == {};
    }

    /** What free does once its checks have passed. */
    method GiveBack(block: nat)
      requires Valid() && block in Live(state)
      modifies mem, `heapList, `state
      ensures Mergeable(old(state).blocks, Next(old(state).blocks, block)) ==>
                Next(old(state).blocks, block) in old(state).list
      ensures Valid() && state == Release(old(state), block)
      ensures Intact(mem[..], old(Others(mem[..], state, {block})))
    {
      hide Inv, InvBut, Stage, Intact, Proper, Windows, MergePrev;
      ghost var s, g := state, Others(mem[..], state, {block});
      ReleaseLayout(s, block);
      StageStarts(mem[..], heapList, s, Others(mem[..], s, {}), {block});
      state := Release(s, block);
      MarkFree(block, s, g);
      MergeWithNext(block, Marked(s, block), g);
      MergeWithPrev(block, AfterNext(Marked(s, block), block), g);
      StageStarts(mem[..], heapList, state, g, {});
    }

    method Free(p: nat)
      requires Valid() && UserArea(state, p)
      modifies mem, `heapList, `state
      ensures Valid() && state == HeapModel.Free(old(state), p)
      ensures Intact(mem[..], old(Others(mem[..], state, Target(p))))
    {
      if p != NULL {
        HeaderReading(mem[..], heapList, state, {}, p - HEADER, Others(mem[..], state, {}));
      }
      if heapList != NULL && p != NULL && !FreeBit(mem[p - HEADER + 1]) {
        GiveBack(p - HEADER);
      }
    }

    /** realloc's expansion into the succeeding block. */
    method Grow(block: nat, next: nat, nBytes: nat)
      requires Valid() && block in Live(state) && next == Next(state.blocks, block) && Mergeable(state.blocks, next)
      requires nBytes % 4 == 0
      requires 4 * state.blocks[block].words < nBytes <= 4 * (state.blocks[block].words + state.blocks[next].words)
      modifies mem, `heapList, `state
      ensures next in old(state).list
      ensures Valid() && state == Extend(old(state), block, nBytes / 4)
      ensures Intact(mem[..], old(Others(mem[..], state, {})))
    {
      hide Inv, InvBut, Stage, Addable, Intact, Proper;
      ghost var s, g := state, Others(mem[..], state, {});
      HeaderReading(mem[..], heapList, s, {}, block, g);
      HeaderReading(mem[..], heapList, s, {}, next, g);
      GrowLayout(s, block, nBytes / 4, mem.Length);
      state := Extend(s, block, nBytes / 4);
      var remainder := SizeOf(mem[block + 1]) + SizeOf(mem[next + 1]) + 16 - nBytes;
      if remainder >= 4 + 16 {
        GrowAndSplice(block, next, nBytes, remainder, s, g);
      } else {
        SwallowNext(block, next, s, g);
      }
      StageStarts(mem[..], heapList, state, g, {});
    }

    method GrowAndSplice(block: nat, next: nat, nBytes: nat, remainder: nat, ghost s: State, ghost g: Clients)
      requires At(s, {}, g) && InvBut(s, block) && block in s.blocks && !s.blocks[block].free
      requires next == Next(s.blocks, block) && Mergeable(s.blocks, next)
      requires nBytes % 4 == 0 && remainder >= 4 * MIN_SPLIT
      requires nBytes + remainder == 4 * (s.blocks[block].words + s.blocks[next].words + HEADER)
      requires block in g.live ==> Next(g.first, block) <= block + HEADER + nBytes / 4
      requires block + HEADER + nBytes / 4 !in g.live
      requires next in s.list ==> Addable(block + HEADER + nBytes / 4, Drop(s.list, IndexOf(s.list, next)), mem.Length)
      modifies mem, `heapList
      ensures next in s.list && At(Occupy(AbsorbNext(s, block), block, nBytes / 4), {}, g)
    {
      hide Stage, InvBut, Addable, ListsOutside;
      SwallowLayout(mem[..], heapList, s, block, g);
      ghost var i := IndexOf(s.list, next);
      Unlink(next, i, s, {}, g);
      HeaderReading(mem[..], heapList, s.(list := Drop(s.list, i)), {}, block, g);
      AbsorbStage(mem[..], heapList, s.(list := Drop(s.list, i)), block, {}, g);
      assert {} + {block} == {block};
      Splice(block, nBytes, remainder, AbsorbNext(s, block), g);
    }

    /** memcpy between areas that do not overlap. */
    method Memcpy(dst: nat, src: nat, n: nat)
      requires dst + n <= mem.Length && src + n <= mem.Length && (dst + n <= src || src + n <= dst)
      modifies mem
      ensures mem[..] == Copied(old(mem[..]), dst, src, n)
    {
      for k := 0 to n
        invariant forall x :: 0 <= x < mem.Length ==>
                    mem[x] == if dst <= x < dst + k then old(mem[src + x - dst]) else old(mem[x])
      {
        mem[dst + k] := mem[src + k];
      }
    }

    /** `memcpy( Next, Block + 1, SIZE(Block) ); free( Block + 1 )`. */
    method CopyAndFree(p: nat, q: nat, words: nat, ghost m0: seq<int>, ghost s: State)
      requires Valid() && BeforeCopy(m0, mem[..], s, state, p, q) && words == s.blocks[p - HEADER].words
      modifies mem, `heapList, `state
      ensures UserArea(old(state), p) && Valid() && state == HeapModel.Free(old(state), p)
      ensures CopiedAndFreed(m0, mem[..], s, p, q)
    {
      hide Inv, Stage, Intact, Proper, Allocated, Words, Copied, Target;
      ghost var t, m1 := state, mem[..];
      AfterMalloc(m0, m1, s, t, p, q);
      CopyStage(m1, heapList, t, q, p, words);
      Memcpy(q, p, words);
      ghost var m2 := mem[..];
      OthersAreProper(m2, t, Target(p));
      Free(p);
      AfterFree(m0, m1, m2, mem[..], s, t, p, q, words);
    }

    /** realloc's last resort: allocate, copy, free. */
    method MoveBlock(p: nat, nBytes: nat) returns (q: int)
      requires Valid() && Held(state, p) && p != NULL
      requires 4 * state.blocks[p - HEADER].words < nBytes <= 0xFFFF_FFFC && nBytes % 4 == 0
      modifies mem, `heapList, `state
      ensures Valid() && (state, q) == Move(old(state), p, nBytes)
      ensures Intact(mem[..], old(Others(mem[..], state, Target(p))))
      ensures q != NULL ==> Holds(mem[..], q, old(Content(p)))
    {
      hide Inv, Stage, Proper, Allocated, Intact, Words, Holds;
      ghost var s, m0 := state, mem[..];
      MallocAllocates(s, p, nBytes);
      HeaderReading(m0, heapList, s, {}, p - HEADER, Others(m0, s, {}));
      var words := SizeOf(mem[p - HEADER + 1]) / 4;
      OthersAreProper(m0, s, {});
      hide HeapModel.Malloc, HeapModel.Move, HeapModel.Free;
      q := Malloc(nBytes);
      IntactForFewer(mem[..], m0, s, Target(p));
      if q == NULL {
        assert (state, q) == Move(s, p, nBytes);
        return;
      }
      CopyAndFree(p, q, words, m0, s);
      assert (state, q) == Move(s, p, nBytes);
    }

    /** realloc's test for expanding into the succeeding block. */
    method CanGrow(block: nat, n: nat) returns (b: bool, next: nat)
      requires Valid() && block in state.blocks && n % 4 == 0
      ensures b <==> Expandable(state, block, n / 4)
      ensures b ==> next == Next(state.blocks, block)
    {
      ghost var g := Others(mem[..], state, {});
      HeaderReading(mem[..], heapList, state, {}, block, g);
      next := block + SizeOf(mem[block + 1]) / 4 + HEADER;
      assert next == Next(state.blocks, block) && next <= state.end;
      b := false;
      if HasNext(block) {
        if next in state.blocks {
          HeaderReading(mem[..], heapList, state, {}, next, g);
        }
        b := FreeBit(mem[next + 1]) && !AlignedBit(mem[next + 1])
             && SizeOf(mem[block + 1]) + SizeOf(mem[next + 1]) >= n;
      }
    }

    method Realloc(p: nat, nBytes: nat) returns (q: int)
      requires Valid() && Held(state, p) && nBytes <= 0xFFFF_FFFC
      modifies mem, `heapList, `state
      ensures Valid() && (state, q) == HeapModel.Realloc(old(state), p, nBytes)
      ensures Intact(mem[..], old(Others(mem[..], state, Target(p))))
      ensures p != NULL && q != NULL ==> Holds(mem[..], q, old(Content(p)))
    {
      if nBytes == 0 {
        Free(p);
        return NULL;
      } else if p == NULL {
        q := Malloc(nBytes);
        return;
      }
      if heapList == NULL {
        return NULL;
      }
      q := ResizeBlock(p, nBytes);
    }

    /** realloc for a block in use and a non-empty free list. */
    method ResizeBlock(p: nat, nBytes: nat) returns (q: int)
      requires Valid() && Held(state, p) && p != NULL && 0 < nBytes <= 0xFFFF_FFFC && state.list != []
      modifies mem, `heapList, `state
      ensures Valid() && (state, q) == HeapModel.Realloc(old(state), p, nBytes)
      ensures Intact(mem[..], old(Others(mem[..], state, Target(p))))
      ensures q != NULL ==> Holds(mem[..], q, old(Content(p)))
    {
      hide Stage, Inv, Intact, Proper, Words, Holds, HeapModel.Realloc, Move, Target;
      ghost var s, m0 := state, mem[..];
      HeaderReading(m0, heapList, s, {}, p - HEADER, Others(m0, s, {}));
      ReallocBranches(s, p, nBytes);
      NothingMoved(m0, s, p);
      KeptInPlace(m0, m0, s, p);
      if nBytes <= SizeOf(mem[p - HEADER + 1]) {
        return p;
      }
      var n := 4 * AlignedWords(nBytes);
      assert n / 4 == AlignedWords(nBytes);
      var grow, next := CanGrow(p - HEADER, n);
      if grow {
        Grow(p - HEADER, next, n);
        KeptInPlace(m0, mem[..], s, p);
        return p;
      }
      q := MoveBlock(p, n);
    }
  }
}

/**
 Looking a name up in a FAT directory (src/fat.c): the assembly of long names from their
 entries, the checksum that ties them to the short entry, and the search.
 */
module LongNames {
  import opened Bytes
  import opened Common

  // ---------------------------------------------------------------- checksum

  /** One step of CheckSum: the sum is rotated right and the next byte added. */
  function Mix(sum: byte, c: byte): byte {
    (Rotated(sum) + c) % 256
  }

  function SumFrom(sum: byte, s: seq<byte>): byte
    decreases s
  {
    if s == [] then sum else SumFrom(Mix(sum, s[0]), s[1..])
  }

  /** The checksum of a short name. */
  function Sum(s: seq<byte>): byte {
    SumFrom(0, s)
  }

  method CheckSum(s: seq<byte>) returns (sum: byte)
    ensures sum == Sum(s)
  {
    sum := 0;
    for k := 0 to |s|
      invariant SumFrom(sum, s[k..]) == Sum(s)
    {
      assert s[k..][0] == s[k] && s[k..][1..] == s[k + 1..];
      sum := Mix(sum, s[k]);
    }
  }

  lemma {:induction false} SumsStayApart(x: byte, y: byte, s: seq<byte>)
    requires x != y
    ensures SumFrom(x, s) != SumFrom(y, s)
    decreases s
  {
    if s != [] {
      MixesStayApart(x, y, s[0]);
      SumsStayApart(Mix(x, s[0]), Mix(y, s[0]), s[1..]);
    }
  }

  lemma MixesStayApart(x: byte, y: byte, c: byte)
    requires x != y
    ensures Mix(x, c) != Mix(y, c)
  {
    hide Rotated;
    RotationKeepsAll(x);
    RotationKeepsAll(y);
    Cut(Rotated(x) + c);
    Cut(Rotated(y) + c);
  }

  lemma Cut(n: nat)
    requires n < 512
    ensures n % 256 == if n < 256 then n else n - 256
  {
  }

  function Rotated(x: byte): byte {
    x % 2 * 128 + x / 2
  }

  lemma RotationKeepsAll(x: byte)
    ensures x == Rotated(x) % 128 * 2 + Rotated(x) / 128
  {
    assert Rotated(x) / 128 == x % 2;
  }

  /** The upper seven bits move down by one place, and the lowest to the top. */
  lemma RotationMovesBits(x: byte)
    ensures Rotated(x) % 128 == x / 2 && Rotated(x) / 128 == x % 2
  {
    assert Rotated(x) == 128 * (x % 2) + x / 2;
  }

  /** A step adds the byte to the rotated sum and nothing else, and a carry is dropped. */
  lemma MixAddsTheByte(sum: byte, c: byte)
    ensures Mix(sum, c) == Rotated(sum) + c || Mix(sum, c) == Rotated(sum) + c - 256
  {
    hide Rotated;
    Cut(Rotated(sum) + c);
  }

  /** The sum of a name begins with 0, and each byte behind it is one step more. */
  lemma {:induction false} SumGrows(s: seq<byte>, c: byte)
    ensures Sum([]) == 0 && Sum(s + [c]) == Mix(Sum(s), c)
  {
    SumFromGrows(0, s, c);
  }

  lemma {:induction false} SumFromGrows(sum: byte, s: seq<byte>, c: byte)
    ensures SumFrom(sum, s + [c]) == Mix(SumFrom(sum, s), c)
    decreases s
  {
    hide Mix;
    if s == [] {
      assert ([] + [c])[1..] == [];
    } else {
      assert (s + [c])[1..] == s[1..] + [c];
      SumFromGrows(Mix(sum, s[0]), s[1..], c);
    }
  }

  /** The checksum tells any change of a single byte. */
  lemma {:induction false} SumTellsAByte(sum: byte, s: seq<byte>, i: nat, c: byte)
    requires i < |s| && c != s[i]
    ensures SumFrom(sum, s[i := c]) != SumFrom(sum, s)
    decreases s
  {
    var t := s[i := c];
    if i == 0 {
      assert t[1..] == s[1..];
      assert Mix(sum, c) != Mix(sum, s[0]);
      SumsStayApart(Mix(sum, c), Mix(sum, s[0]), s[1..]);
    } else {
      assert t[0] == s[0] && t[1..] == s[1..][i - 1 := c];
      SumTellsAByte(Mix(sum, s[0]), s[1..], i - 1, c);
    }
  }

  // ---------------------------------------------------------------- entries

  /** The 32 bytes of a directory entry, short or long. */
  type Entry = e: seq<byte> | |e| == 32 witness seq(32, _ => 0)

  /** DIR_Attr says that this is part of a long name. */
  predicate IsLong(e: Entry) { e[11] % 64 == 15 }

  /** LDIR_Ord's LAST_LONG_ENTRY bit. */
  predicate HasFlag(ord: byte) { ord / 64 % 2 == 1 }

  function Plain(ord: byte): byte { if HasFlag(ord) then ord - 64 else ord }

  function LongChecksum(e: Entry): byte { e[13] }

  /** LDIR_Type and LDIR_FstClusLO are zero. */
  predicate IsOrdinary(e: Entry) { e[12] == 0 && e[26] == 0 && e[27] == 0 }

  /** The 13 characters of a long entry; only the low bytes are kept. */
  function Chars(e: Entry): (r: seq<byte>)
    ensures |r| == 13
  {
    [e[1], e[3], e[5], e[7], e[9], e[14], e[16], e[18], e[20], e[22], e[24], e[28], e[30]]
  }

  /** A first byte of 5 stands for E5; it is replaced in every entry, long ones included. */
  function Patched(e: Entry): Entry {
    if e[0] == 5 then e[0 := 0xE5] else e
  }

  // ---------------------------------------------------------------- names

  /** A C string: the bytes before the first NUL. */
  function CString(s: seq<byte>): (r: seq<byte>)
    ensures |r| <= |s| && r == s[..|r|] && 0 !in r && (|r| < |s| ==> s[|r|] == 0)
  {
    if s == [] || s[0] == 0 then [] else [s[0]] + CString(s[1..])
  }

  lemma {:induction false} CStringIs(s: seq<byte>, n: nat)
    requires n < |s| && s[n] == 0 && 0 !in s[..n]
    ensures CString(s) == s[..n]
  {
    if n > 0 {
      assert s[..n][0] == s[0];
      assert forall x :: x in s[1..][..n - 1] ==> x in s[..n];
      CStringIs(s[1..], n - 1);
      assert s[..n] == [s[0]] + s[1..][..n - 1];
    }
  }

  function ToUpper(c: byte): byte {
    if 'a' as int <= c <= 'z' as int then c - 32 else c
  }

  function UpperCased(s: seq<byte>): seq<byte> {
    seq(|s|, i requires 0 <= i < |s| => ToUpper(s[i]))
  }

  /** stricmp finds no difference. */
  predicate SameName(a: seq<byte>, b: seq<byte>) {
    UpperCased(a) == UpperCased(b)
  }

  /** The same letter in upper and lower case, or the same character. */
  predicate SameButCase(x: byte, y: byte) {
    x == y || ('A' as int <= x <= 'Z' as int && y == x + 32) || ('A' as int <= y <= 'Z' as int && x == y + 32)
  }

  lemma SameNameIff(a: seq<byte>, b: seq<byte>)
    ensures SameName(a, b) <==> |a| == |b| && forall i :: 0 <= i < |a| ==> SameButCase(a[i], b[i])
  {
    if SameName(a, b) {
      assert |UpperCased(a)| == |UpperCased(b)|;
      forall i | 0 <= i < |a| ensures SameButCase(a[i], b[i]) {
        assert UpperCased(a)[i] == UpperCased(b)[i];
      }
    }
  }

  // ---------------------------------------------------------------- the search, an entry at a time

  /**
   LastDirEntry, DirEntry, Checksum and Filename: the ordinal of the set's first entry, that of
   the entry before the next one, and what the set has told so far.
   */
  datatype State = State(last: nat, next: nat, checksum: byte, name: seq<byte>) {
    predicate Valid() {
      next <= last <= 20 && (last != 0 ==> next < last) && |name| == 256
    }
  }

  datatype Verdict = Skip | FoundLong | FoundShort | Stop

  /** Filename has room for 20 entries; FitsIff says what an entry that does not fit writes. */
  predicate Fits(e: Entry) {
    IsLong(e) && HasFlag(Patched(e)[0]) ==> Plain(Patched(e)[0]) <= 20 || Plain(Patched(e)[0]) > 63
  }

  /** How many characters of entry number j, counted from 0, are stored. */
  function Stored(j: nat): nat { if j < 19 then 13 else 8 }

  /** The characters of entry number j go to their place; those of the first one read are terminated. */
  function Store(name: seq<byte>, j: nat, e: Entry, terminate: bool): (r: seq<byte>)
    requires |name| == 256 && j <= 19
    ensures |r| == 256
  {
    var r := Spliced(name, 13 * j, Chars(e)[..Stored(j)]);
    if terminate then r[13 * j + Stored(j) := 0] else r
  }

  /** The same for any entry, as the code decides it: the last five only if they go below place 255. */
  function Kept(j: nat): nat { if 13 * j + 8 < 255 then 13 else 8 }

  /**
   A flagged entry with ordinal 1 to 63 begins a set, and its characters and the NUL behind them go
   to places 13 * j to 13 * j + Kept(j) for j the ordinal less 1: inside the 256 bytes of Filename
   exactly when the entry fits, and all of them outside when it does not.
   */
  lemma FitsIff(e: Entry)
    requires IsLong(e) && HasFlag(Patched(e)[0]) && 1 <= Plain(Patched(e)[0]) <= 63
    ensures var j := Plain(Patched(e)[0]) - 1;
      && (Fits(e) <==> 13 * j + Kept(j) < 256)
      && (Fits(e) ==> Stored(j) == Kept(j))
      && (!Fits(e) <==> 256 <= 13 * j)
  {
  }

  function Reset(st: State): State {
    st.(last := 0, next := 0)
  }

  /** A long entry. */
  function LongStep(st: State, e: Entry): (r: State)
    requires st.Valid() && (HasFlag(e[0]) ==> Plain(e[0]) <= 20 || Plain(e[0]) > 63)
    ensures r.Valid()
  {
    if (st.next != st.last) == HasFlag(e[0]) then Reset(st) else
    var first := st.last == 0;
    var ord := if first then Plain(e[0]) else e[0];
    var t := if first then State(ord, ord, LongChecksum(e), st.name) else st;
    if 0 < t.next <= 0x3F && ord == t.next && IsOrdinary(e) && LongChecksum(e) == t.checksum then
      State(t.last, t.next - 1, t.checksum, Store(t.name, t.next - 1, e, t.next == t.last))
    else Reset(t)
  }

  /** A short entry that follows a complete set of long ones with its checksum. */
  predicate Belongs(st: State, e: Entry) {
    st.last != 0 && st.next == 0 && Sum(e[..11]) == st.checksum
  }

  /** strncmp finds no difference between the short name and the one searched, which is empty if there can be none. */
  predicate ShortMatch(oem: seq<byte>, e: Entry) {
    |oem| == 11 && e[..11] == oem
  }

  function Step(st: State, raw: Entry, target: seq<byte>, oem: seq<byte>): (r: (State, Verdict))
    requires st.Valid() && Fits(raw)
    ensures r.0.Valid()
  {
    if raw[0] == 0 then (st, Stop)
    else if raw[0] == 0xE5 then (st, Skip)
    else
      var e := Patched(raw);
      if IsLong(e) then (LongStep(st, e), Skip)
      else if Belongs(st, e) then (Reset(st), if SameName(CString(st.name), target) then FoundLong else Skip)
      else (Reset(st), if ShortMatch(oem, e) then FoundShort else Skip)
  }

  predicate AllFit(es: seq<Entry>) {
    forall i :: 0 <= i < |es| ==> Fits(es[i])
  }

  const Clean: State := State(0, 0, 0, seq(256, _ => 0))

  /** The state after these entries, none of which ended the search. */
  function Fold(st: State, es: seq<Entry>, target: seq<byte>, oem: seq<byte>): (r: State)
    requires st.Valid() && AllFit(es)
    ensures r.Valid()
    decreases |es|
  {
    if es == [] then st else Step(Fold(st, es[..|es| - 1], target, oem), es[|es| - 1], target, oem).0
  }

  /** What the search over a directory's entries comes to, from entry i on. */
  datatype Result = NotFound | ByLongName(index: nat) | ByShortName(index: nat)

  function Scan(st: State, es: seq<Entry>, i: nat, target: seq<byte>, oem: seq<byte>): (r: Result)
    requires st.Valid() && AllFit(es) && i <= |es|
    ensures r != NotFound ==> i <= r.index < |es|
    decreases |es| - i
  {
    if i == |es| then NotFound else
    var (t, v) := Step(st, es[i], target, oem);
    match v
    case Stop => NotFound
    case FoundLong => ByLongName(i)
    case FoundShort => ByShortName(i)
    case Skip => Scan(t, es, i + 1, target, oem)
  }

  // ---------------------------------------------------------------- soundness

  /** The entries that are not deleted. */
  function Live(es: seq<Entry>): (r: seq<Entry>)
    decreases |es|
  {
    if es == [] then [] else
    Live(es[..|es| - 1]) + if es[|es| - 1][0] == 0xE5 then [] else [es[|es| - 1]]
  }

  /** Entry i of a set of n: its ordinal is n - i, flagged in the first, and it carries the set's checksum. */
  predicate IsPart(e: Entry, n: nat, i: nat, checksum: byte) {
    && i < n && IsLong(e) && IsOrdinary(e) && LongChecksum(e) == checksum
    && e[0] == (if i == 0 then n + 64 else n - i)
  }

  /** What the reader takes for a part: not a first byte of 5, which it has replaced by then. */
  predicate IsTaken(e: Entry, n: nat, i: nat, checksum: byte) {
    IsPart(e, n, i, checksum) && e[0] != 5
  }

  /** The first entries of a set of n; ordinals count down, so later entries hold earlier characters. */
  predicate AreTaken(set_: seq<Entry>, n: nat, checksum: byte) {
    forall i :: 0 <= i < |set_| ==> IsTaken(set_[i], n, i, checksum)
  }

  /**
   Which entries are taken for the first ones of a set of n: in attribute byte, type, cluster and checksum
   as the format has them, with ordinals from n down, and the first one flagged with 40h; but not with ordinal 5.
   */
  lemma TakenAre(set_: seq<Entry>, n: nat, checksum: byte)
    requires |set_| <= n
    ensures AreTaken(set_, n, checksum) <==>
              forall i :: 0 <= i < |set_| ==>
                && set_[i][11] % 64 == 0x0F && set_[i][12] == 0 && set_[i][26] == 0 && set_[i][27] == 0
                && set_[i][13] == checksum && set_[i][0] != 5 && set_[i][0] == n - i + (if i == 0 then 0x40 else 0)
  {
  }

  /** The entries' characters are where they belong, the last of them terminated. */
  predicate Holds(name: seq<byte>, set_: seq<Entry>, n: nat)
    requires |name| == 256 && |set_| <= n <= 20
  {
    && (set_ != [] ==> name[13 * (n - 1) + Stored(n - 1)] == 0)
    && forall i {:trigger set_[i]} :: 0 <= i < |set_| ==>
         name[13 * (n - 1 - i)..13 * (n - 1 - i) + Stored(n - 1 - i)] == Chars(set_[i])[..Stored(n - 1 - i)]
  }

  /** The last k live entries are the set that the state speaks of. */
  predicate Tracks(st: State, live: seq<Entry>)
    requires st.Valid()
  {
    st.last != 0 ==>
      var k := st.last - st.next;
      && k <= |live|
      && AreTaken(live[|live| - k..], st.last, st.checksum)
      && Holds(st.name, live[|live| - k..], st.last)
  }

  lemma StepTracks(st: State, live: seq<Entry>, raw: Entry, target: seq<byte>, oem: seq<byte>)
    requires st.Valid() && Tracks(st, live) && Fits(raw) && raw[0] != 0 && raw[0] != 0xE5
    ensures Tracks(Step(st, raw, target, oem).0, live + [raw])
  {
    var e := Patched(raw);
    if IsLong(e) {
      LongStepTracks(st, live, raw);
    }
  }

  lemma LongStepTracks(st: State, live: seq<Entry>, raw: Entry)
    requires st.Valid() && Tracks(st, live) && Fits(raw) && IsLong(raw)
    ensures Tracks(LongStep(st, Patched(raw)), live + [raw])
  {
    hide Holds, Store, Chars;
    var e := Patched(raw);
    var r := LongStep(st, e);
    if r.last != 0 {
      var k := st.last - st.next;
      var set_ := if st.last == 0 then [] else live[|live| - k..];
      NothingHeld(st.name, r.last);
      assert r.next + 1 == r.last - |set_|;
      assert e[0] != 0xE5;
      assert (live + [raw])[|live + [raw]| - |set_| - 1..] == set_ + [raw];
      assert IsTaken(raw, r.last, |set_|, r.checksum);
      StoreHolds(st.name, set_, r.last, raw);
    }
  }

  lemma NothingHeld(name: seq<byte>, n: nat)
    requires |name| == 256 && n <= 20
    ensures Holds(name, [], n)
  {
  }

  lemma StoreHolds(name: seq<byte>, set_: seq<Entry>, n: nat, e: Entry)
    requires |name| == 256 && |set_| < n <= 20 && Holds(name, set_, n)
    ensures Holds(Store(name, n - 1 - |set_|, e, set_ == []), set_ + [e], n)
  {
    hide Chars, Store;
    var j := n - 1 - |set_|;
    var r := Store(name, j, e, set_ == []);
    StoreAt(name, j, e, set_ == []);
    forall i | 0 <= i < |set_| ensures r[13 * (n - 1 - i)..13 * (n - 1 - i) + Stored(n - 1 - i)]
          == Chars(set_[i])[..Stored(n - 1 - i)] {
      StoreKeeps(name, j, e, 13 * (n - 1 - i), 13 * (n - 1 - i) + Stored(n - 1 - i));
    }
    if set_ != [] {
      StoreKeeps(name, j, e, 13 * (n - 1), 13 * (n - 1) + Stored(n - 1) + 1);
      var q := 13 * (n - 1);
      assert r[q..q + Stored(n - 1) + 1][Stored(n - 1)] == name[q..q + Stored(n - 1) + 1][Stored(n - 1)];
    }
  }

  lemma StoreAt(name: seq<byte>, j: nat, e: Entry, terminate: bool)
    requires |name| == 256 && j <= 19
    ensures Store(name, j, e, terminate)[13 * j..13 * j + Stored(j)] == Chars(e)[..Stored(j)]
    ensures terminate ==> Store(name, j, e, terminate)[13 * j + Stored(j)] == 0
  {
    hide Chars;
  }

  lemma StoreKeeps(name: seq<byte>, j: nat, e: Entry, from: nat, to: nat)
    requires |name| == 256 && j <= 18 && 13 * j + 13 <= from <= to <= 256
    ensures Store(name, j, e, false)[from..to] == name[from..to]
  {
    hide Chars;
  }

  lemma {:induction false} FoldTracks(es: seq<Entry>, target: seq<byte>, oem: seq<byte>)
    requires AllFit(es) && forall i :: 0 <= i < |es| ==> es[i][0] != 0
    ensures Tracks(Fold(Clean, es, target, oem), Live(es))
    decreases |es|
  {
    hide Tracks, Step, Fits;
    if es == [] {
      CleanTracks();
    } else {
      var n := |es| - 1;
      FoldTracks(es[..n], target, oem);
      if es[n][0] == 0xE5 {
        assert Live(es) == Live(es[..n]);
        DeletedIsIgnored(Fold(Clean, es[..n], target, oem), es[n], target, oem);
      } else {
        StepTracks(Fold(Clean, es[..n], target, oem), Live(es[..n]), es[n], target, oem);
      }
    }
  }

  lemma CleanTracks()
    ensures Clean.Valid() && Tracks(Clean, [])
  {
  }

  /** A deleted entry changes nothing, wherever it stands in a set. */
  lemma DeletedIsIgnored(st: State, raw: Entry, target: seq<byte>, oem: seq<byte>)
    requires st.Valid() && Fits(raw) && raw[0] == 0xE5
    ensures Step(st, raw, target, oem) == (st, Skip)
  {
  }

  /** The characters of a set: those of its last entry come first. */
  function Joined(set_: seq<Entry>): (r: seq<byte>)
    ensures |r| == 13 * |set_|
  {
    if set_ == [] then [] else Joined(set_[1..]) + Chars(set_[0])
  }

  lemma {:induction false} JoinedAt(set_: seq<Entry>, i: nat)
    requires i < |set_|
    ensures Joined(set_)[13 * (|set_| - 1 - i)..13 * (|set_| - i)] == Chars(set_[i])
  {
    if i == 0 {
      assert Joined(set_)[13 * (|set_| - 1)..] == Chars(set_[0]);
    } else {
      JoinedAt(set_[1..], i - 1);
      assert set_[1..][i - 1] == set_[i];
      assert Joined(set_)[..13 * (|set_| - 1)] == Joined(set_[1..]);
      SliceOfSlice(Joined(set_), 0, 13 * (|set_| - 1), 13 * (|set_| - 1 - i), 13 * (|set_| - i));
    }
  }

  /** What a complete set has left in Filename. */
  lemma HeldName(name: seq<byte>, set_: seq<Entry>, n: nat)
    requires |name| == 256 && 1 <= n == |set_| <= 5 && Holds(name, set_, n)
    ensures name[..13 * n] == Joined(set_) && name[13 * n] == 0
  {
    hide Holds, Joined;
    HeldEnd(name, set_, n);
    forall p | 0 <= p < 13 * n ensures name[p] == Joined(set_)[p] {
      HeldChar(name, set_, n, n - 1 - p / 13, p);
    }
  }

  lemma HeldEnd(name: seq<byte>, set_: seq<Entry>, n: nat)
    requires |name| == 256 && 1 <= n == |set_| <= 5 && Holds(name, set_, n)
    ensures name[13 * n] == 0
  {
  }

  lemma HeldChar(name: seq<byte>, set_: seq<Entry>, n: nat, i: nat, p: nat)
    requires |name| == 256 && 1 <= n == |set_| <= 5 && Holds(name, set_, n)
    requires i < n && 13 * (n - 1 - i) <= p < 13 * (n - i)
    ensures name[p] == Joined(set_)[p]
  {
    hide Joined, Chars;
    var q := 13 * (n - 1 - i);
    JoinedAt(set_, i);
    var e := set_[i];
    assert name[q..q + 13] == Chars(e)[..13] == Chars(e);
    assert name[p] == name[q..q + 13][p - q] && Joined(set_)[p] == Joined(set_)[q..q + 13][p - q];
  }

  /** No set of more than five entries is taken: the one with ordinal 5 begins with the byte that is replaced. */
  lemma TakenSetsAreShort(set_: seq<Entry>, n: nat, checksum: byte)
    requires AreTaken(set_, n, checksum) && |set_| == n
    ensures n <= 5
  {
    if n > 5 {
      OrdinalFiveIsNotTaken(set_[n - 5], n, checksum);
      assert false;
    }
  }

  lemma OrdinalFiveIsNotTaken(e: Entry, n: nat, checksum: byte)
    requires n > 5
    ensures !IsTaken(e, n, n - 5, checksum)
  {
  }

  /** The set of long entries, complete and in order, that belongs to a short entry. */
  predicate Introduces(set_: seq<Entry>, short: Entry) {
    && 1 <= |set_|
    && (forall i :: 0 <= i < |set_| ==> IsPart(set_[i], |set_|, i, Sum(Patched(short)[..11])))
  }

  /** The last n entries are a complete set for the short entry, and they spell the name. */
  predicate Spell(live: seq<Entry>, n: nat, short: Entry, target: seq<byte>) {
    && 1 <= n <= |live|
    && Introduces(live[|live| - n..], short)
    && SameName(CString(Joined(live[|live| - n..]) + [0]), target)
  }

  /**
   Soundness over every directory: an entry is found by its long name only if the live entries
   right before it are a complete set with its checksum, and that set spells the name.
   */
  lemma LongMatchIsSound(es: seq<Entry>, target: seq<byte>, oem: seq<byte>)
    requires AllFit(es) && Scan(Clean, es, 0, target, oem).ByLongName?
    ensures var k := Scan(Clean, es, 0, target, oem).index;
      exists n :: n <= 5 && Spell(Live(es[..k]), n, es[k], target)
  {
    hide Scan, Step, Fits, Tracks, Fold, Live, Spell;
    var k := Scan(Clean, es, 0, target, oem).index;
    FoldOfNothing(es, target, oem);
    ScanIsFold(es, 0, target, oem);
    FoldTracks(es[..k], target, oem);
    var n := TrackedSetSpells(Fold(Clean, es[..k], target, oem), Live(es[..k]), es[k], target, oem);
  }

  lemma FoldOfNothing(es: seq<Entry>, target: seq<byte>, oem: seq<byte>)
    requires AllFit(es)
    ensures Clean.Valid() && Fold(Clean, es[..0], target, oem) == Clean
  {
  }

  lemma TrackedSetSpells(st: State, live: seq<Entry>, raw: Entry, target: seq<byte>, oem: seq<byte>) returns (n: nat)
    requires st.Valid() && Tracks(st, live) && Fits(raw) && Step(st, raw, target, oem).1 == FoundLong
    ensures n <= 5 && Spell(live, n, raw, target)
  {
    hide Holds, IsTaken, Joined, SameName;
    n := st.last;
    var set_ := live[|live| - n..];
    TakenSetsAreShort(set_, n, st.checksum);
    HeldName(st.name, set_, n);
    SameCString(st.name, Joined(set_) + [0]);
    forall i | 0 <= i < n ensures IsPart(set_[i], n, i, st.checksum) {
      TakenIsPart(set_[i], n, i, st.checksum);
    }
  }

  lemma TakenIsPart(e: Entry, n: nat, i: nat, checksum: byte)
    requires IsTaken(e, n, i, checksum)
    ensures IsPart(e, n, i, checksum)
  {
  }

  lemma {:induction false} SameCString(a: seq<byte>, b: seq<byte>)
    requires 0 < |b| <= |a| && a[..|b|] == b && b[|b| - 1] == 0
    ensures CString(a) == CString(b)
    decreases |b|
  {
    assert a[0] == b[0];
    if b[0] != 0 {
      assert a[1..][..|b| - 1] == b[1..];
      SameCString(a[1..], b[1..]);
    }
  }

  /** The entry that ends a scan is judged in the state that the entries before it lead to. */
  lemma {:induction false} ScanIsFold(es: seq<Entry>, i: nat, target: seq<byte>, oem: seq<byte>)
    requires AllFit(es) && i <= |es| && (forall j :: 0 <= j < i ==> es[j][0] != 0)
    ensures var r := Scan(Fold(Clean, es[..i], target, oem), es, i, target, oem);
      r != NotFound ==>
        && (forall j :: 0 <= j < r.index ==> es[j][0] != 0)
        && Step(Fold(Clean, es[..r.index], target, oem), es[r.index], target, oem).1
           == (if r.ByLongName? then FoundLong else FoundShort)
    decreases |es| - i
  {
    hide Step, Fits;
    if i < |es| {
      assert es[..i + 1][..i] == es[..i];
      StopsAtTheEnd(Fold(Clean, es[..i], target, oem), es[i], target, oem);
      if Step(Fold(Clean, es[..i], target, oem), es[i], target, oem).1 == Skip {
        ScanIsFold(es, i + 1, target, oem);
      }
    }
  }

  lemma StopsAtTheEnd(st: State, raw: Entry, target: seq<byte>, oem: seq<byte>)
    requires st.Valid() && Fits(raw)
    ensures Step(st, raw, target, oem).1 == Stop <==> raw[0] == 0
  {
  }

  // ---------------------------------------------------------------- completeness

  /** Character p of a name in its entries: what follows the name is a NUL and then FF. */
  function Low(name: seq<byte>, p: nat): byte {
    if p < |name| then name[p] else if p == |name| then 0 else 0xFF
  }

  function High(name: seq<byte>, p: nat): byte {
    if p <= |name| then 0 else 0xFF
  }

  function EntryCount(name: seq<byte>): nat { (|name| + 12) / 13 }

  /** Entry i of the set for a name, as FAT Long Directory Entries lays it out. */
  function LongEntry(name: seq<byte>, n: nat, i: nat, checksum: byte): Entry
    requires i < n <= 20
  {
    var p := 13 * (n - 1 - i);
    [ if i == 0 then n + 64 else n - i,
      Low(name, p), High(name, p), Low(name, p + 1), High(name, p + 1), Low(name, p + 2), High(name, p + 2),
      Low(name, p + 3), High(name, p + 3), Low(name, p + 4), High(name, p + 4),
      15, 0, checksum,
      Low(name, p + 5), High(name, p + 5), Low(name, p + 6), High(name, p + 6), Low(name, p + 7), High(name, p + 7),
      Low(name, p + 8), High(name, p + 8), Low(name, p + 9), High(name, p + 9), Low(name, p + 10), High(name, p + 10),
      0, 0,
      Low(name, p + 11), High(name, p + 11), Low(name, p + 12), High(name, p + 12) ]
  }

  /** The set for a name of up to 255 characters. */
  function LaidOut(name: seq<byte>, checksum: byte): (r: seq<Entry>)
    requires 1 <= |name| <= 255
  {
    var n := EntryCount(name);
    seq(n, i requires 0 <= i < n => LongEntry(name, n, i, checksum))
  }

  lemma LaidOutIsSet(name: seq<byte>, checksum: byte)
    requires 1 <= |name| <= 255
    ensures var set_ := LaidOut(name, checksum); var n := EntryCount(name);
      1 <= n <= 20 && |set_| == n && forall i :: 0 <= i < n ==> IsPart(set_[i], n, i, checksum)
  {
    hide LongEntry, IsPart;
    var n := EntryCount(name);
    forall i | 0 <= i < n ensures IsPart(LaidOut(name, checksum)[i], n, i, checksum) {
      EntryIsPart(name, n, i, checksum);
    }
  }

  lemma EntryIsPart(name: seq<byte>, n: nat, i: nat, checksum: byte)
    requires i < n <= 20
    ensures IsPart(LongEntry(name, n, i, checksum), n, i, checksum)
  {
    hide Low, High;
  }

  /** The set spells the name. */
  lemma LaidOutSpells(name: seq<byte>, checksum: byte)
    requires 1 <= |name| <= 255 && 0 !in name
    ensures CString(Joined(LaidOut(name, checksum)) + [0]) == name
  {
    hide Joined, LongEntry, Chars;
    var n := EntryCount(name);
    var t := Joined(LaidOut(name, checksum)) + [0];
    forall p | 0 <= p < 13 * n ensures t[p] == Low(name, p) {
      LaidOutChar(name, checksum, n, n - 1 - p / 13, p);
    }
    assert t[..|name|] == name && t[|name|] == 0;
    CStringIs(t, |name|);
  }

  lemma LaidOutChar(name: seq<byte>, checksum: byte, n: nat, i: nat, p: nat)
    requires 1 <= |name| <= 255 && n == EntryCount(name) && i < n && 13 * (n - 1 - i) <= p < 13 * (n - i)
    ensures Joined(LaidOut(name, checksum))[p] == Low(name, p)
  {
    hide Joined, LongEntry, Chars;
    var set_, q := LaidOut(name, checksum), 13 * (n - 1 - i);
    JoinedAt(set_, i);
    assert Joined(set_)[p] == Joined(set_)[q..q + 13][p - q];
    CharOf(name, n, i, checksum, p - q);
  }

  lemma CharOf(name: seq<byte>, n: nat, i: nat, checksum: byte, q: nat)
    requires i < n <= 20 && q < 13
    ensures Chars(LongEntry(name, n, i, checksum))[q] == Low(name, 13 * (n - 1 - i) + q)
  {
  }

  /** Deleted entries within a set do not matter. */
  lemma {:induction false} FoldLive(st: State, es: seq<Entry>, target: seq<byte>, oem: seq<byte>)
    requires st.Valid() && AllFit(es)
    ensures AllFit(Live(es)) && Fold(st, Live(es), target, oem) == Fold(st, es, target, oem)
    decreases |es|
  {
    hide Step, Fits;
    if es != [] {
      var n := |es| - 1;
      FoldLive(st, es[..n], target, oem);
      if es[n][0] == 0xE5 {
        assert Live(es) == Live(es[..n]);
        DeletedIsIgnored(Fold(st, es[..n], target, oem), es[n], target, oem);
      } else {
        assert Live(es)[..|Live(es)| - 1] == Live(es[..n]);
      }
    }
  }

  /** The first k entries of a set are taken, up to the one with ordinal 5 if the set goes on before it. */
  lemma {:induction false} FoldSet(st: State, set_: seq<Entry>, checksum: byte, k: nat, target: seq<byte>,
                                   oem: seq<byte>)
    requires st.Valid() && st.last == 0 && 1 <= |set_| <= 20 && forall i :: 0 <= i < |set_| ==>
              IsPart(set_[i], |set_|, i, checksum)
    requires k <= |set_| && (|set_| > 5 ==> k <= |set_| - 5)
    ensures AllFit(set_[..k])
    ensures var r := Fold(st, set_[..k], target, oem);
      && Tracks(r, set_[..k])
      && (if k == 0 then r == st else r.last == |set_| && r.next == |set_| - k && r.checksum == checksum)
  {
    hide Step, AllFit, Fits, Tracks, IsPart, Fold;
    if k == 0 {
      EmptyTracks(st);
      FoldNothing(st, set_, target, oem);
    } else {
      FoldSet(st, set_, checksum, k - 1, target, oem);
      var e, r := set_[k - 1], Fold(st, set_[..k - 1], target, oem);
      PartsAreNotFive(e, |set_|, k - 1, checksum);
      PartIsTaken(r, e, |set_|, k - 1, checksum, target, oem);
      FoldOne(st, set_, k, target, oem);
      StepTracks(r, set_[..k - 1], e, target, oem);
      assert set_[..k] == set_[..k - 1] + [e];
    }
  }

  lemma FoldNothing(st: State, es: seq<Entry>, target: seq<byte>, oem: seq<byte>)
    requires st.Valid()
    ensures AllFit(es[..0]) && Fold(st, es[..0], target, oem) == st && es[..0] == []
  {
  }

  lemma FoldOne(st: State, es: seq<Entry>, k: nat, target: seq<byte>, oem: seq<byte>)
    requires st.Valid() && 1 <= k <= |es| && AllFit(es[..k - 1]) && Fits(es[k - 1])
    ensures AllFit(es[..k])
    ensures Fold(st, es[..k], target, oem) == Step(Fold(st, es[..k - 1], target, oem), es[k - 1], target, oem).0
  {
    hide Step, Fits;
    assert es[..k][..k - 1] == es[..k - 1];
    forall i | 0 <= i < k ensures Fits(es[..k][i]) {
      if i < k - 1 {
        assert es[..k][i] == es[..k - 1][i];
      }
    }
  }

  lemma EmptyTracks(st: State)
    requires st.Valid() && st.last == 0
    ensures Tracks(st, [])
  {
  }

  lemma PartsAreNotFive(e: Entry, n: nat, i: nat, checksum: byte)
    requires IsPart(e, n, i, checksum) && n <= 20 && (n > 5 ==> i < n - 5)
    ensures e[0] != 5 && e[0] != 0 && e[0] != 0xE5
  {
  }

  lemma PartIsTaken(st: State, e: Entry, n: nat, i: nat, checksum: byte, target: seq<byte>, oem: seq<byte>)
    requires st.Valid() && 1 <= n <= 20 && IsPart(e, n, i, checksum) && e[0] != 5
    requires if i == 0 then st.last == 0 else st.last == n && st.next == n - i && st.checksum == checksum
    ensures Fits(e)
    ensures var r := Step(st, e, target, oem).0; r.last == n && r.next == n - i - 1 && r.checksum == checksum
  {
  }

  /** Once the entry with ordinal 5 has been refused, none of the others is taken. */
  lemma {:induction false} FoldBroken(st: State, set_: seq<Entry>, checksum: byte, k: nat, target: seq<byte>,
                                      oem: seq<byte>)
    requires st.Valid() && st.last == 0 && 5 < |set_| <= 20 && forall i :: 0 <= i < |set_| ==>
              IsPart(set_[i], |set_|, i, checksum)
    requires |set_| - 5 < k <= |set_|
    ensures AllFit(set_[..k]) && Fold(st, set_[..k], target, oem).last == 0
  {
    hide Step, AllFit, Fits, Tracks, IsPart, Fold;
    if k - 1 == |set_| - 5 {
      FoldSet(st, set_, checksum, k - 1, target, oem);
    } else {
      FoldBroken(st, set_, checksum, k - 1, target, oem);
    }
    PartIsRefused(Fold(st, set_[..k - 1], target, oem), set_[k - 1], |set_|, k - 1, checksum, target, oem);
    FoldOne(st, set_, k, target, oem);
  }

  lemma PartIsRefused(st: State, e: Entry, n: nat, i: nat, checksum: byte, target: seq<byte>, oem: seq<byte>)
    requires st.Valid() && 5 < n <= 20 && IsPart(e, n, i, checksum) && n - 5 <= i
    requires if i == n - 5 then st.last == n && st.next == 5 else st.last == 0
    ensures Fits(e) && Step(st, e, target, oem).0.last == 0
  {
  }

  /** Long and deleted entries never end a scan. */
  predicate Quiet(es: seq<Entry>) {
    forall i :: 0 <= i < |es| ==> es[i][0] != 0 && (es[i][0] == 0xE5 || IsLong(es[i]))
  }

  lemma {:induction false} ScanPasses(st: State, es: seq<Entry>, k: nat, target: seq<byte>, oem: seq<byte>)
    requires st.Valid() && AllFit(es) && k <= |es| && Quiet(es[..k])
    ensures Scan(st, es, 0, target, oem) == Scan(Fold(st, es[..k], target, oem), es, k, target, oem)
  {
    hide Step, Fits;
    if k > 0 {
      assert es[..k][..k - 1] == es[..k - 1];
      assert es[..k][k - 1] == es[k - 1];
      assert Quiet(es[..k - 1]) by {
        assert forall i :: 0 <= i < k - 1 ==> es[..k - 1][i] == es[..k][i];
      }
      ScanPasses(st, es, k - 1, target, oem);
      QuietIsSkipped(Fold(st, es[..k - 1], target, oem), es[k - 1], target, oem);
    }
  }

  lemma QuietIsSkipped(st: State, raw: Entry, target: seq<byte>, oem: seq<byte>)
    requires st.Valid() && Fits(raw) && raw[0] != 0 && (raw[0] == 0xE5 || IsLong(raw))
    ensures Step(st, raw, target, oem).1 == Skip
  {
  }

  /** A set that begins where another one has not been finished, or used, is refused from its first entry on. */
  lemma {:induction false} FoldRefused(st: State, set_: seq<Entry>, checksum: byte, k: nat, target: seq<byte>,
                                       oem: seq<byte>)
    requires st.Valid() && st.last != 0 && 1 <= |set_| <= 20 && forall i :: 0 <= i < |set_| ==>
              IsPart(set_[i], |set_|, i, checksum)
    requires 1 <= k <= |set_|
    ensures AllFit(set_[..k]) && Fold(st, set_[..k], target, oem).last == 0
  {
    hide Step, AllFit, Fits, IsPart, Fold;
    if k == 1 {
      FoldNothing(st, set_, target, oem);
    } else {
      FoldRefused(st, set_, checksum, k - 1, target, oem);
    }
    IsRefused(Fold(st, set_[..k - 1], target, oem), set_[k - 1], |set_|, k - 1, checksum, target, oem);
    FoldOne(st, set_, k, target, oem);
  }

  lemma IsRefused(st: State, e: Entry, n: nat, i: nat, checksum: byte, target: seq<byte>, oem: seq<byte>)
    requires st.Valid() && n <= 20 && IsPart(e, n, i, checksum) && (i == 0) == (st.last != 0)
    ensures Fits(e) && Step(st, e, target, oem).0.last == 0
  {
  }

  /** A set for the name and its short entry, met in any state. */
  lemma SetIsFoundIff(st: State, before: seq<Entry>, short: Entry, rest: seq<Entry>, name: seq<byte>, target: seq<byte>,
                      oem: seq<byte>)
    requires st.Valid() && AllFit(before + [short] + rest)
    requires 1 <= |name| <= 255 && 0 !in name && short[0] != 0 && short[0] != 0xE5 && !IsLong(short)
    requires Quiet(before) && Live(before) == LaidOut(name, Sum(short[..11]))
    ensures Scan(st, before + [short] + rest, 0, target, oem) == ByLongName(|before|) <==>
              st.last == 0 && |name| <= 65 && short[0] != 5 && SameName(name, target)
  {
    hide Fold, Scan, Fits, Live, LaidOut, Tracks, Sum, SameName, IsPart, Patched;
    var es, k := before + [short] + rest, |before|;
    assert es[..k] == before && es[k] == short;
    AllFitPrefix(es, k);
    ScanPasses(st, es, k, target, oem);
    FoldLive(st, before, target, oem);
    var sum := Sum(short[..11]);
    var set_ := LaidOut(name, sum);
    LaidOutIsSet(name, sum);
    assert set_[..|set_|] == set_;
    var r := Fold(st, before, target, oem);
    if st.last != 0 {
      FoldRefused(st, set_, sum, |set_|, target, oem);
      OtherSum(r, short, es, k, sum, target, oem);
    } else if |name| <= 65 {
      FoldSet(st, set_, sum, |set_|, target, oem);
      if short[0] == 5 {
        PatchChangesSum(short);
        OtherSum(r, short, es, k, sum, target, oem);
      } else {
        SetSpells(r, set_, name, sum);
        SameSum(r, short, es, k, target, oem);
      }
    } else {
      FoldBroken(st, set_, sum, |set_|, target, oem);
      OtherSum(r, short, es, k, sum, target, oem);
    }
  }

  // ---------------------------------------------------------------- sets left unfinished

  /** Neither an end mark nor deleted. */
  predicate Plainly(live: seq<Entry>) {
    forall i :: 0 <= i < |live| ==> live[i][0] != 0 && live[i][0] != 0xE5
  }

  /**
   A set is left unfinished, without a short entry behind it: the last entries are the first ones
   of a set, and those before them leave none unfinished, as they would then have hidden this one.
   */
  ghost predicate Unfinished(live: seq<Entry>)
    decreases |live|
  {
    exists m: nat, n: nat, c: byte ::
      1 <= m <= |live| && m <= n <= 20 && Begins(live, m, n, c) && !Unfinished(live[..|live| - m])
  }

  /** The last m entries are the first ones of a set of n. */
  predicate Begins(live: seq<Entry>, m: nat, n: nat, c: byte)
    requires m <= |live|
  {
    AreTaken(live[|live| - m..], n, c)
  }

  /** The reader speaks of a set exactly when one has been left unfinished. */
  lemma {:induction false} UnfinishedIff(live: seq<Entry>, target: seq<byte>, oem: seq<byte>)
    requires AllFit(live) && Plainly(live)
    ensures Fold(Clean, live, target, oem).last != 0 <==> Unfinished(live)
    decreases |live|
  {
    hide Step, Fits, Fold, AreTaken;
    var st := Fold(Clean, live, target, oem);
    if st.last != 0 {
      BeganClean(live, target, oem);
      var m := st.last - st.next;
      PrefixIsPlain(live, |live| - m);
      UnfinishedIff(live[..|live| - m], target, oem);
      LastOnesBegin(live, target, oem);
      assert Begins(live, m, st.last, st.checksum);
    }
    if Unfinished(live) {
      var m: nat, n: nat, c: byte :| 1 <= m <= |live| && m <= n <= 20 && Begins(live, m, n, c)
        && !Unfinished(live[..|live| - m]);
      PrefixIsPlain(live, |live| - m);
      UnfinishedIff(live[..|live| - m], target, oem);
      FoldTaken(live, |live| - m, m, n, c, target, oem);
      assert live[..|live|] == live;
    }
  }

  lemma PrefixIsPlain(live: seq<Entry>, k: nat)
    requires AllFit(live) && Plainly(live) && k <= |live|
    ensures AllFit(live[..k]) && Plainly(live[..k])
  {
  }

  lemma LastOnesBegin(live: seq<Entry>, target: seq<byte>, oem: seq<byte>)
    requires AllFit(live) && Plainly(live) && Fold(Clean, live, target, oem).last != 0
    ensures var st := Fold(Clean, live, target, oem);
      st.last - st.next <= |live| && Begins(live, st.last - st.next, st.last, st.checksum)
  {
    hide Step, Fits, Fold, AreTaken, Holds, Live;
    FoldTracks(live, target, oem);
    LiveIsAll(live);
  }

  lemma {:induction false} LiveIsAll(live: seq<Entry>)
    requires Plainly(live)
    ensures Live(live) == live
    decreases |live|
  {
    if live != [] {
      LiveIsAll(live[..|live| - 1]);
    }
  }

  lemma {:induction false} LiveIsPlain(es: seq<Entry>)
    requires forall j :: 0 <= j < |es| ==> es[j][0] != 0
    ensures Plainly(Live(es))
    decreases |es|
  {
    if es != [] {
      LiveIsPlain(es[..|es| - 1]);
    }
  }

  /** Before the set that the state speaks of, it spoke of none. */
  lemma {:induction false} BeganClean(live: seq<Entry>, target: seq<byte>, oem: seq<byte>)
    requires AllFit(live) && Plainly(live) && Fold(Clean, live, target, oem).last != 0
    ensures var st := Fold(Clean, live, target, oem); var k := st.last - st.next;
      1 <= k <= |live| && AllFit(live[..|live| - k]) && Fold(Clean, live[..|live| - k], target, oem).last == 0
    decreases |live|
  {
    hide Step, Fits, Fold;
    var n := |live| - 1;
    if n < 0 {
      FoldNothing(Clean, live, target, oem);
      assert false;
    } else {
      var head, st, r := live[..n], Fold(Clean, live[..n], target, oem), Fold(Clean, live, target, oem);
      FoldOne(Clean, live, n + 1, target, oem);
      assert live[..n + 1] == live;
      OneMore(st, live[n], target, oem);
      if st.last != 0 {
        BeganClean(head, target, oem);
        assert head[..n - (st.last - st.next)] == live[..|live| - (r.last - r.next)];
      }
    }
  }

  lemma OneMore(st: State, raw: Entry, target: seq<byte>, oem: seq<byte>)
    requires st.Valid() && Fits(raw) && raw[0] != 0 && raw[0] != 0xE5
    ensures var r := Step(st, raw, target, oem).0;
      r.last != 0 ==> r.last - r.next == 1 + (if st.last == 0 then 0 else st.last - st.next)
  {
  }

  /** From a clean state the first entries of a set are taken. */
  lemma {:induction false} FoldTaken(live: seq<Entry>, from: nat, k: nat, n: nat, c: byte, target: seq<byte>,
                                     oem: seq<byte>)
    requires AllFit(live) && from + k <= |live| <= from + n && n <= 20 && AreTaken(live[from..], n, c)
    requires AllFit(live[..from]) && Fold(Clean, live[..from], target, oem).last == 0
    ensures AllFit(live[..from + k])
    ensures var r := Fold(Clean, live[..from + k], target, oem);
      if k == 0 then r.last == 0 else r.last == n && r.next == n - k && r.checksum == c
  {
    hide Step, Fits, Fold, IsPart;
    if k > 0 {
      FoldTaken(live, from, k - 1, n, c, target, oem);
      assert live[from..][k - 1] == live[from + k - 1];
      PartIsTaken(Fold(Clean, live[..from + k - 1], target, oem), live[from + k - 1], n, k - 1, c, target, oem);
      FoldOne(Clean, live, from + k, target, oem);
    }
  }

  // ---------------------------------------------------------------- what the search finds

  /** An entry of a file: not an end mark, not deleted, and not part of a long name. */
  predicate LiveShort(e: Entry) {
    e[0] != 0 && e[0] != 0xE5 && e[11] % 64 != 15
  }

  /** Its 11 bytes are those searched; a first byte of 5 stands for E5. */
  predicate HasShortName(e: Entry, oem: seq<byte>) {
    |oem| == 11 && forall i :: 0 <= i < 11 ==> oem[i] == if i == 0 && e[0] == 5 then 0xE5 else e[i]
  }

  /** The last n live entries are a complete set with the entry's checksum, begun when no other was unfinished. */
  ghost predicate Owns(live: seq<Entry>, e: Entry, n: nat) {
    && 1 <= n <= |live| && n <= 20
    && Begins(live, n, n, Sum(Patched(e)[..11])) && !Unfinished(live[..|live| - n])
  }

  /** The entry has such a set. */
  ghost predicate HasSet(live: seq<Entry>, e: Entry) {
    exists n: nat :: Owns(live, e, n)
  }

  /** And it spells the name searched. */
  ghost predicate HasLongName(live: seq<Entry>, e: Entry, target: seq<byte>) {
    exists n: nat :: Owns(live, e, n) && SameName(CString(Joined(live[|live| - n..]) + [0]), target)
  }

  /** Entry k is one that is searched: by its long name if it has one, otherwise by its short name. */
  ghost predicate Matches(es: seq<Entry>, k: nat, target: seq<byte>, oem: seq<byte>)
    requires k < |es|
  {
    LiveShort(es[k]) &&
    if HasSet(Live(es[..k]), es[k]) then HasLongName(Live(es[..k]), es[k], target) else HasShortName(es[k], oem)
  }

  /** No entry before the first i is an end mark or one that is searched. */
  ghost predicate NoneBefore(es: seq<Entry>, i: nat, target: seq<byte>, oem: seq<byte>)
    requires i <= |es|
  {
    && (forall j :: 0 <= j < i ==> es[j][0] != 0)
    && (forall j :: 0 <= j < i ==> !Matches(es, j, target, oem))
  }

  /** The entry found is the first one that is searched, and no end mark stands before it; or there is none. */
  ghost predicate FindsFirst(es: seq<Entry>, r: Result, target: seq<byte>, oem: seq<byte>) {
    match r
    case NotFound => exists i: nat :: i <= |es| && NoneBefore(es, i, target, oem) && (i == |es| || es[i][0] == 0)
    case ByLongName(k) =>
      k < |es| && NoneBefore(es, k, target, oem) && Matches(es, k, target, oem) && HasSet(Live(es[..k]), es[k])
    case ByShortName(k) =>
      k < |es| && NoneBefore(es, k, target, oem) && Matches(es, k, target, oem) && !HasSet(Live(es[..k]), es[k])
  }

  /** Where the NUL of a set of n goes. */
  function NulAt(n: nat): (p: nat)
    requires 1 <= n <= 20
    ensures p < 256
  {
    13 * (n - 1) + Stored(n - 1)
  }

  /** Two states that speak of the same set; what it has not told of the name may differ. */
  predicate Alike(a: State, b: State)
    requires a.Valid() && b.Valid()
  {
    a.last == b.last &&
    (a.last != 0 ==>
       && a.next == b.next && a.checksum == b.checksum && a.name[NulAt(a.last)] == 0
       && SameTold(a.name, b.name, 13 * a.next, NulAt(a.last)))
  }

  predicate SameTold(a: seq<byte>, b: seq<byte>, from: nat, to: nat) {
    |a| == |b| == 256 && to < 256 && forall p :: from <= p <= to ==> a[p] == b[p]
  }

  /** They are told apart by no entry. */
  lemma StepAlike(a: State, b: State, raw: Entry, target: seq<byte>, oem: seq<byte>)
    requires a.Valid() && b.Valid() && Alike(a, b) && Fits(raw)
    ensures Step(a, raw, target, oem).1 == Step(b, raw, target, oem).1
    ensures Alike(Step(a, raw, target, oem).0, Step(b, raw, target, oem).0)
  {
    hide SameName, CString, Sum, Store, SameTold;
    var e := Patched(raw);
    if IsLong(e) {
      LongStepAlike(a, b, e);
    } else if Belongs(a, e) {
      SameToldString(a.name, b.name, NulAt(a.last));
    }
  }

  lemma SameToldString(a: seq<byte>, b: seq<byte>, to: nat)
    requires SameTold(a, b, 0, to) && a[to] == 0
    ensures CString(a) == CString(b)
  {
    assert a[..to + 1] == b[..to + 1];
    SameCString(a, a[..to + 1]);
    SameCString(b, b[..to + 1]);
  }

  lemma LongStepAlike(a: State, b: State, e: Entry)
    requires a.Valid() && b.Valid() && Alike(a, b) && (HasFlag(e[0]) ==> Plain(e[0]) <= 20 || Plain(e[0]) > 63)
    ensures Alike(LongStep(a, e), LongStep(b, e))
  {
    hide Store, SameTold;
    var r := LongStep(a, e);
    if r.last != 0 {
      var j, first := r.next, a.last == 0;
      assert first <==> r.next + 1 == r.last;
      StoreTells(a.name, b.name, j, e, r.last);
    }
  }

  lemma StoreTells(a: seq<byte>, b: seq<byte>, j: nat, e: Entry, n: nat)
    requires |a| == |b| == 256 && j < n <= 20
    requires j + 1 != n ==> a[NulAt(n)] == 0 && SameTold(a, b, 13 * (j + 1), NulAt(n))
    ensures Store(a, j, e, j + 1 == n)[NulAt(n)] == 0
    ensures SameTold(Store(a, j, e, j + 1 == n), Store(b, j, e, j + 1 == n), 13 * j, NulAt(n))
  {
    hide Chars, Store;
    var first, end := j + 1 == n, NulAt(n);
    StoreByte(a, j, e, first, end);
    forall p | 13 * j <= p <= end ensures Store(a, j, e, first)[p] == Store(b, j, e, first)[p] {
      StoreByte(a, j, e, first, p);
      StoreByte(b, j, e, first, p);
    }
  }

  lemma StoreByte(name: seq<byte>, j: nat, e: Entry, terminate: bool, p: nat)
    requires |name| == 256 && j <= 19 && p < 256
    ensures Store(name, j, e, terminate)[p] ==
              if 13 * j <= p < 13 * j + Stored(j) then Chars(e)[p - 13 * j]
              else if terminate && p == 13 * j + Stored(j) then 0
              else name[p]
  {
    hide Chars;
  }

  lemma {:induction false} ScanAlike(a: State, b: State, es: seq<Entry>, i: nat, target: seq<byte>, oem: seq<byte>)
    requires a.Valid() && b.Valid() && Alike(a, b) && AllFit(es) && i <= |es|
    ensures Scan(a, es, i, target, oem) == Scan(b, es, i, target, oem)
    decreases |es| - i
  {
    hide Step, Fits, Alike;
    if i < |es| {
      StepAlike(a, b, es[i], target, oem);
      if Step(a, es[i], target, oem).1 == Skip {
        ScanAlike(Step(a, es[i], target, oem).0, Step(b, es[i], target, oem).0, es, i + 1, target, oem);
      }
    }
  }

  /** What a search finds in any directory, whatever its buffer holds at first. */
  lemma ScanFindsFirst(st: State, es: seq<Entry>, target: seq<byte>, oem: seq<byte>)
    requires st.Valid() && st.last == 0 && AllFit(es)
    ensures FindsFirst(es, Scan(st, es, 0, target, oem), target, oem)
  {
    hide Scan, Fits, FindsFirst, Fold;
    ScanAlike(st, Clean, es, 0, target, oem);
    FoldOfNothing(es, target, oem);
    ScanFindsFrom(es, 0, target, oem);
  }

  lemma {:induction false} ScanFindsFrom(es: seq<Entry>, i: nat, target: seq<byte>, oem: seq<byte>)
    requires AllFit(es) && i <= |es| && NoneBefore(es, i, target, oem)
    ensures AllFit(es[..i]) && FindsFirst(es, Scan(Fold(Clean, es[..i], target, oem), es, i, target, oem), target, oem)
    decreases |es| - i
  {
    hide Step, Fits, Matches, HasSet, Live, Fold;
    AllFitPrefix(es, i);
    if i < |es| {
      FitsAt(es, i);
      NoEndBefore(es, i, target, oem);
      VerdictIs(es, i, target, oem);
      FoldOne(Clean, es, i + 1, target, oem);
      if Step(Fold(Clean, es[..i], target, oem), es[i], target, oem).1 == Skip {
        NoneBeforeNext(es, i, target, oem);
        ScanFindsFrom(es, i + 1, target, oem);
      }
    }
  }

  lemma NoneBeforeNext(es: seq<Entry>, i: nat, target: seq<byte>, oem: seq<byte>)
    requires i < |es| && NoneBefore(es, i, target, oem) && es[i][0] != 0 && !Matches(es, i, target, oem)
    ensures NoneBefore(es, i + 1, target, oem)
  {
    hide Matches;
  }

  lemma NoEndBefore(es: seq<Entry>, i: nat, target: seq<byte>, oem: seq<byte>)
    requires i <= |es| && NoneBefore(es, i, target, oem)
    ensures forall j :: 0 <= j < i ==> es[..i][j][0] != 0
  {
    hide Matches;
  }

  /** How the reader judges an entry, in terms of the entries before it. */
  lemma VerdictIs(es: seq<Entry>, k: nat, target: seq<byte>, oem: seq<byte>)
    requires AllFit(es) && k < |es| && AllFit(es[..k]) && Fits(es[k]) && forall j :: 0 <= j < k ==> es[..k][j][0] != 0
    ensures var v := Step(Fold(Clean, es[..k], target, oem), es[k], target, oem).1; var live := Live(es[..k]);
      && (v == Stop <==> es[k][0] == 0)
      && (v == FoundLong <==> Matches(es, k, target, oem) && HasSet(live, es[k]))
      && (v == FoundShort <==> Matches(es, k, target, oem) && !HasSet(live, es[k]))
  {
    hide Fold, Live, Unfinished, Plainly, HasSet, HasLongName, HasShortName, SameName, CString, Belongs, Fits, AllFit;
    LiveIsPlain(es[..k]);
    FoldLive(Clean, es[..k], target, oem);
    BelongsIff(Live(es[..k]), es[k], target, oem);
    ShortMatchIff(es[k], oem);
  }

  lemma ShortMatchIff(e: Entry, oem: seq<byte>)
    ensures ShortMatch(oem, Patched(e)) <==> HasShortName(e, oem)
  {
    if HasShortName(e, oem) {
      assert Patched(e)[..11] == oem;
    }
    if ShortMatch(oem, Patched(e)) {
      forall i | 0 <= i < 11 ensures oem[i] == if i == 0 && e[0] == 5 then 0xE5 else e[i] {
        assert Patched(e)[..11][i] == Patched(e)[i];
      }
    }
  }

  lemma BelongsIff(live: seq<Entry>, e: Entry, target: seq<byte>, oem: seq<byte>)
    requires AllFit(live) && Plainly(live)
    ensures var st := Fold(Clean, live, target, oem);
      && (Belongs(st, Patched(e)) <==> HasSet(live, e))
      && (Belongs(st, Patched(e)) ==> (SameName(CString(st.name), target) <==> HasLongName(live, e, target)))
  {
    hide Fold, Fits, Unfinished, Begins, Sum, SameName, Joined, Step;
    var st := Fold(Clean, live, target, oem);
    if Belongs(st, Patched(e)) {
      OwnedSet(live, e, target, oem);
      assert Owns(live, e, st.last);
    }
    forall n | Owns(live, e, n)
      ensures Belongs(st, Patched(e)) && st.last == n && CString(st.name) == CString(Joined(live[|live| - n..]) + [0])
    {
      OwnedSetIsTracked(live, e, n, target, oem);
    }
  }

  lemma OwnedSet(live: seq<Entry>, e: Entry, target: seq<byte>, oem: seq<byte>)
    requires AllFit(live) && Plainly(live) && Belongs(Fold(Clean, live, target, oem), Patched(e))
    ensures Owns(live, e, Fold(Clean, live, target, oem).last)
  {
    hide Fold, Fits, Unfinished, Begins, Sum, Step, Plainly, AllFit;
    BeganClean(live, target, oem);
    LastOnesBegin(live, target, oem);
    var n := Fold(Clean, live, target, oem).last;
    PrefixIsPlain(live, |live| - n);
    UnfinishedIff(live[..|live| - n], target, oem);
  }

  lemma OwnedSetIsTracked(live: seq<Entry>, e: Entry, n: nat, target: seq<byte>, oem: seq<byte>)
    requires AllFit(live) && Plainly(live) && Owns(live, e, n)
    ensures var st := Fold(Clean, live, target, oem);
      && Belongs(st, Patched(e)) && st.last == n
      && CString(st.name) == CString(Joined(live[|live| - n..]) + [0])
  {
    hide Fold, Fits, Unfinished, AreTaken, Sum, Step, Plainly, AllFit, Holds, Joined;
    var c := Sum(Patched(e)[..11]);
    PrefixIsPlain(live, |live| - n);
    UnfinishedIff(live[..|live| - n], target, oem);
    FoldTaken(live, |live| - n, n, n, c, target, oem);
    assert live[..|live|] == live;
    var st, set_ := Fold(Clean, live, target, oem), live[|live| - n..];
    TakenSetsAreShort(set_, n, c);
    StillHolds(live, target, oem);
    HeldName(st.name, set_, n);
    SameCString(st.name, Joined(set_) + [0]);
  }

  lemma StillHolds(live: seq<Entry>, target: seq<byte>, oem: seq<byte>)
    requires AllFit(live) && Plainly(live)
    ensures var st := Fold(Clean, live, target, oem);
      st.last != 0 ==> st.last - st.next <= |live| && Holds(st.name, live[|live| - (st.last - st.next)..], st.last)
  {
    hide Fold, Fits, AreTaken, Holds, Step;
    FoldTracks(live, target, oem);
    LiveIsAll(live);
  }

  // ---------------------------------------------------------------- the round trip

  /** The search passes entry k. */
  predicate Passes(st: State, es: seq<Entry>, k: nat, target: seq<byte>, oem: seq<byte>)
    requires st.Valid() && AllFit(es) && k < |es|
  {
    Step(Fold(st, es[..k], target, oem), es[k], target, oem).1 == Skip
  }

  /** No entry ends the search. */
  predicate NoneEnds(st: State, es: seq<Entry>, target: seq<byte>, oem: seq<byte>)
    requires st.Valid() && AllFit(es)
  {
    forall k :: 0 <= k < |es| ==> Passes(st, es, k, target, oem)
  }

  /** A scan that passes k entries goes on with the state that they lead to. */
  lemma {:induction false} ScanGoesOn(st: State, es: seq<Entry>, k: nat, target: seq<byte>, oem: seq<byte>)
    requires st.Valid() && AllFit(es) && k <= |es| && forall j :: 0 <= j < k ==> Passes(st, es, j, target, oem)
    ensures AllFit(es[..k]) && Scan(st, es, 0, target, oem) == Scan(Fold(st, es[..k], target, oem), es, k, target, oem)
  {
    hide Step, Fits;
    if k > 0 {
      ScanGoesOn(st, es, k - 1, target, oem);
      assert es[..k][..k - 1] == es[..k - 1] && Passes(st, es, k - 1, target, oem);
    } else {
      FoldNothing(st, es, target, oem);
    }
  }

  /** A scan ends at the first entry that it does not pass. */
  lemma {:induction false} ScanEndsEarly(st: State, es: seq<Entry>, k: nat, target: seq<byte>, oem: seq<byte>)
    requires st.Valid() && AllFit(es) && k <= |es| && !forall j :: 0 <= j < k ==> Passes(st, es, j, target, oem)
    ensures var r := Scan(st, es, 0, target, oem); r == NotFound || r.index < k
    decreases k
  {
    hide Step, Fits;
    if forall j :: 0 <= j < k - 1 ==> Passes(st, es, j, target, oem) {
      ScanGoesOn(st, es, k - 1, target, oem);
      assert !Passes(st, es, k - 1, target, oem);
    } else {
      ScanEndsEarly(st, es, k - 1, target, oem);
    }
  }

  /** None ends the search when it finds nothing, and there is no end mark. */
  lemma NoneEndsIff(st: State, es: seq<Entry>, target: seq<byte>, oem: seq<byte>)
    requires st.Valid() && AllFit(es)
    ensures NoneEnds(st, es, target, oem) <==>
              Scan(st, es, 0, target, oem) == NotFound && forall j :: 0 <= j < |es| ==> es[j][0] != 0
  {
    hide Step, Fits, Scan, Fold;
    if NoneEnds(st, es, target, oem) {
      ScanGoesOn(st, es, |es|, target, oem);
      NothingLeft(Fold(st, es[..|es|], target, oem), es, target, oem);
      forall j | 0 <= j < |es| ensures es[j][0] != 0 {
        assert Passes(st, es, j, target, oem);
        AllFitPrefix(es, j);
        FitsAt(es, j);
        StopsAtTheEnd(Fold(st, es[..j], target, oem), es[j], target, oem);
      }
    } else if forall j :: 0 <= j < |es| ==> es[j][0] != 0 {
      var k := FirstEnd(st, es, |es|, target, oem);
      ScanGoesOn(st, es, k, target, oem);
      FitsAt(es, k);
      StopsAtTheEnd(Fold(st, es[..k], target, oem), es[k], target, oem);
      FoundHere(Fold(st, es[..k], target, oem), es, k, target, oem);
    }
  }

  lemma FitsAt(es: seq<Entry>, k: nat)
    requires AllFit(es) && k < |es|
    ensures Fits(es[k])
  {
  }

  lemma NothingLeft(st: State, es: seq<Entry>, target: seq<byte>, oem: seq<byte>)
    requires st.Valid() && AllFit(es)
    ensures Scan(st, es, |es|, target, oem) == NotFound
  {
  }

  lemma FoundHere(st: State, es: seq<Entry>, k: nat, target: seq<byte>, oem: seq<byte>)
    requires st.Valid() && AllFit(es) && k < |es| && Step(st, es[k], target, oem).1 in {FoundLong, FoundShort}
    ensures Scan(st, es, k, target, oem) != NotFound
  {
  }

  lemma {:induction false} FirstEnd(st: State, es: seq<Entry>, n: nat, target: seq<byte>, oem: seq<byte>)
    returns (k: nat)
    requires st.Valid() && AllFit(es) && n <= |es| && !forall j :: 0 <= j < n ==> Passes(st, es, j, target, oem)
    ensures k < n && !Passes(st, es, k, target, oem) && forall j :: 0 <= j < k ==> Passes(st, es, j, target, oem)
  {
    hide Passes, AllFit;
    if forall j :: 0 <= j < n - 1 ==> Passes(st, es, j, target, oem) {
      k := n - 1;
    } else {
      k := FirstEnd(st, es, n - 1, target, oem);
    }
  }

  function Shifted(r: Result, n: nat): Result {
    match r
    case NotFound => NotFound
    case ByLongName(i) => ByLongName(n + i)
    case ByShortName(i) => ByShortName(n + i)
  }

  /** Entries in front only move what is found. */
  lemma {:induction false} ScanBehind(st: State, earlier: seq<Entry>, es: seq<Entry>, i: nat, target: seq<byte>,
                                      oem: seq<byte>)
    requires st.Valid() && AllFit(earlier + es) && AllFit(es) && i <= |es|
    ensures Scan(st, earlier + es, |earlier| + i, target, oem) == Shifted(Scan(st, es, i, target, oem), |earlier|)
    decreases |es| - i
  {
    hide Step, Fits;
    if i < |es| {
      assert (earlier + es)[|earlier| + i] == es[i];
      if Step(st, es[i], target, oem).1 == Skip {
        ScanBehind(Step(st, es[i], target, oem).0, earlier, es, i + 1, target, oem);
      }
    }
  }

  /**
   The round trip, and how far it goes.  A short entry preceded by the set for a name, with any
   deleted entries among them, is found by that name, in upper or lower case, exactly when
   nothing earlier in the directory ends the search or leaves a set unfinished right before this
   one, the name has at most 65 characters, and the short name does not begin with the byte 5.
   */
  lemma LongNameIsFoundIff(earlier: seq<Entry>, before: seq<Entry>, short: Entry, rest: seq<Entry>,
                           name: seq<byte>, target: seq<byte>, oem: seq<byte>)
    requires AllFit(earlier) && AllFit(before + [short] + rest)
    requires 1 <= |name| <= 255 && 0 !in name && short[0] != 0 && short[0] != 0xE5 && !IsLong(short)
    requires Quiet(before) && Live(before) == LaidOut(name, Sum(short[..11]))
    ensures AllFit(earlier + (before + [short] + rest))
    ensures Scan(Clean, earlier + (before + [short] + rest), 0, target, oem) == ByLongName(|earlier| + |before|) <==>
              && NoneEnds(Clean, earlier, target, oem) && !Unfinished(Live(earlier))
              && |name| <= 65 && short[0] != 5 && SameName(name, target)
  {
    hide Fold, Scan, Fits, Live, LaidOut, Sum, SameName, Quiet, Passes, IsLong, Unfinished, Plainly;
    var es := before + [short] + rest;
    var all, k := earlier + es, |earlier|;
    assert all[..k] == earlier;
    PassesBefore(earlier, es, target, oem);
    if NoneEnds(Clean, earlier, target, oem) {
      NoneEndsIff(Clean, earlier, target, oem);
      LiveIsPlain(earlier);
      FoldLive(Clean, earlier, target, oem);
      UnfinishedIff(Live(earlier), target, oem);
      ScanGoesOn(Clean, all, k, target, oem);
      var st := Fold(Clean, earlier, target, oem);
      ScanBehind(st, earlier, es, 0, target, oem);
      SetIsFoundIff(st, before, short, rest, name, target, oem);
    } else {
      ScanEndsEarly(Clean, all, k, target, oem);
    }
  }

  lemma PassesBefore(earlier: seq<Entry>, es: seq<Entry>, target: seq<byte>, oem: seq<byte>)
    requires AllFit(earlier) && AllFit(es)
    ensures AllFit(earlier + es)
    ensures forall j :: 0 <= j < |earlier| ==>
              (Passes(Clean, earlier + es, j, target, oem) <==> Passes(Clean, earlier, j, target, oem))
  {
    hide Step, Fits, Fold;
    forall j | 0 <= j < |earlier| ensures Passes(Clean, earlier + es, j, target, oem) <==>
          Passes(Clean, earlier, j, target, oem) {
      assert (earlier + es)[..j] == earlier[..j];
    }
  }

  /** A set that was begun and not finished, here the first entry of two, hides the next name. */
  lemma UnfinishedSetHidesTheNext(name: seq<byte>, checksum: byte, target: seq<byte>, oem: seq<byte>)
    requires |name| == 26
    ensures var orphan := LaidOut(name, checksum)[..1];
      AllFit(orphan) && NoneEnds(Clean, orphan, target, oem) && Unfinished(Live(orphan))
  {
    hide Fits, IsPart, LaidOut, Step, Unfinished, Plainly, Fold, Live;
    LaidOutIsSet(name, checksum);
    var set_ := LaidOut(name, checksum);
    FoldSet(Clean, set_, checksum, 1, target, oem);
    PartIsQuiet(set_[0], 2, 0, checksum);
    FitsAt(set_[..1], 0);
    FoldNothing(Clean, set_[..1], target, oem);
    QuietIsSkipped(Fold(Clean, set_[..1][..0], target, oem), set_[0], target, oem);
    LiveIsPlain(set_[..1]);
    FoldLive(Clean, set_[..1], target, oem);
    UnfinishedIff(Live(set_[..1]), target, oem);
  }

  lemma PartIsQuiet(e: Entry, n: nat, i: nat, checksum: byte)
    requires IsPart(e, n, i, checksum) && 1 <= n <= 20
    ensures e[0] != 0 && IsLong(e)
  {
  }

  /** The checksum is taken after the first byte has been replaced, the set's was taken before. */
  lemma PatchChangesSum(short: Entry)
    requires short[0] == 5
    ensures Sum(Patched(short)[..11]) != Sum(short[..11])
  {
    assert Patched(short)[..11] == short[..11][0 := 0xE5];
    SumTellsAByte(0, short[..11], 0, 0xE5);
  }

  lemma AllFitPrefix(es: seq<Entry>, k: nat)
    requires AllFit(es) && k <= |es|
    ensures AllFit(es[..k])
  {
  }

  lemma SetSpells(st: State, set_: seq<Entry>, name: seq<byte>, checksum: byte)
    requires st.Valid() && 1 <= |name| <= 65 && 0 !in name && set_ == LaidOut(name, checksum)
    requires st.last == |set_| && st.next == 0 && Tracks(st, set_)
    ensures CString(st.name) == name
  {
    hide Holds, Joined;
    LaidOutIsSet(name, checksum);
    assert set_[0..] == set_;
    HeldName(st.name, set_, |set_|);
    LaidOutSpells(name, checksum);
    SameCString(st.name, Joined(set_) + [0]);
  }

  lemma SameSum(st: State, short: Entry, es: seq<Entry>, k: nat, target: seq<byte>, oem: seq<byte>)
    requires st.Valid() && AllFit(es) && k < |es| && es[k] == short && short[0] != 0 && short[0] != 0xE5
    requires short[0] != 5 && !IsLong(short)
    requires st.last != 0 && st.next == 0 && st.checksum == Sum(short[..11])
    ensures Scan(st, es, k, target, oem) == ByLongName(k) <==> SameName(CString(st.name), target)
  {
    hide Sum, SameName;
  }

  lemma OtherSum(st: State, short: Entry, es: seq<Entry>, k: nat, sum: byte, target: seq<byte>, oem: seq<byte>)
    requires st.Valid() && AllFit(es) && k < |es| && es[k] == short && short[0] != 0 && short[0] != 0xE5
    requires !IsLong(short)
    requires st.last == 0 || (st.checksum == sum && sum != Sum(Patched(short)[..11]))
    ensures Scan(st, es, k, target, oem) != ByLongName(k)
  {
    hide Sum, SameName;
  }
}


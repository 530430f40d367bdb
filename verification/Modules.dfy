/** LoadModules (src/multiboot.c): the boot modules, loaded one by one; those that fail are deleted in place. */
module Modules {
  import opened Bytes
  import opened Common
  import opened Env
  import opened Image
  import opened PhysMem
  import opened Placing
  import opened SectorIo

  /** A MODULE; the text is the file's name and its arguments, later the arguments only. */
  datatype Module = Module(start: nat, end: nat, text: Option<string>)

  // ---------------------------------------------------------------- the text of a module

  /** strchr for a blank; the length of the text when there is none. */
  function Blank(s: string): (i: nat)
    ensures i <= |s| && ' ' !in s[..i] && (i < |s| ==> s[i] == ' ')
  {
    if s == "" || s[0] == ' ' then 0 else
    var i := 1 + Blank(s[1..]);
    assert s[..i] == [s[0]] + s[1..][..i - 1];
    i
  }

  function SkipBlanks(s: string): (r: string)
    ensures r == "" || r[0] != ' '
  {
    if s != "" && s[0] == ' ' then SkipBlanks(s[1..]) else s
  }

  function NameOf(s: string): string { s[..Blank(s)] }

  function ArgumentsOf(s: string): Option<string> {
    if Blank(s) == |s| then None else Some(SkipBlanks(s[Blank(s) + 1..]))
  }

  // ---------------------------------------------------------------- what is to come of the modules

  /** The name ends at the first blank; the arguments begin behind all that follow it, and without one are none. */
  lemma TextIsSplit(name: string, blanks: string, rest: string)
    requires ' ' !in name && blanks != "" && AllBlank(blanks) && (rest == "" || rest[0] != ' ')
    ensures NameOf(name + blanks + rest) == name && ArgumentsOf(name + blanks + rest) == Some(rest)
    ensures NameOf(name) == name && ArgumentsOf(name) == None
  {
    hide SkipBlanks;
    var t := name + blanks + rest;
    assert t == name + (blanks + rest) && blanks[0] == ' ';
    FirstBlank(name, blanks + rest);
    FirstBlank(name, "");
    assert name + "" == name;
    assert t[|name| + 1..] == blanks[1..] + rest;
    BlanksSkipped(blanks[1..], rest);
  }

  predicate AllBlank(s: string) {
    forall i :: 0 <= i < |s| ==> s[i] == ' '
  }

  lemma {:induction false} FirstBlank(name: string, rest: string)
    requires ' ' !in name && (rest == "" || rest[0] == ' ')
    ensures Blank(name + rest) == |name|
  {
    if name == "" {
      assert name + rest == rest;
    } else {
      assert (name + rest)[1..] == name[1..] + rest;
      FirstBlank(name[1..], rest);
    }
  }

  lemma {:induction false} BlanksSkipped(blanks: string, rest: string)
    requires AllBlank(blanks) && (rest == "" || rest[0] != ' ')
    ensures SkipBlanks(blanks + rest) == rest
  {
    if blanks == "" {
      assert blanks + rest == rest;
    } else {
      assert (blanks + rest)[1..] == blanks[1..] + rest;
      BlanksSkipped(blanks[1..], rest);
    }
  }

  /** The address where a module went, if it was loaded. */
  type Fate = Option<nat>

  function Loaded(m: Module, a: nat, files: map<string, seq<byte>>): Module
    requires m.text.Some? && NameOf(m.text.value) in files
  {
    Module(a, a + |files[NameOf(m.text.value)]|, ArgumentsOf(m.text.value))
  }

  predicate Sensible(ms: seq<Module>, fates: seq<Fate>, files: map<string, seq<byte>>) {
    |fates| <= |ms| && forall k :: 0 <= k < |fates| ==>
          ms[k].text.Some? && (fates[k].Some? ==> NameOf(ms[k].text.value) in files)
  }

  /** The modules that were loaded, in their original order. */
  function Survivors(ms: seq<Module>, fates: seq<Fate>, files: map<string, seq<byte>>): seq<Module>
    requires Sensible(ms, fates, files)
    decreases |fates|
  {
    if fates == [] then [] else
    var k := |fates| - 1;
    Survivors(ms, fates[..k], files) + if fates[k].Some? then [Loaded(ms[k], fates[k].value, files)] else []
  }

  /** A stable filter: the survivor before it and after it, in order. */
  lemma SurvivorsPush(ms: seq<Module>, fates: seq<Fate>, files: map<string, seq<byte>>, f: Fate)
    requires Sensible(ms, fates, files) && |fates| < |ms| && ms[|fates|].text.Some?
    requires (f.Some? ==> NameOf(ms[|fates|].text.value) in files)
    ensures Sensible(ms, fates + [f], files)
    ensures Survivors(ms, fates + [f], files)
         == Survivors(ms, fates, files) + if f.Some? then [Loaded(ms[|fates|], f.value, files)] else []
  {
    assert (fates + [f])[..|fates|] == fates;
  }

  /** How many of the first k modules have been loaded. */
  function Rank(fates: seq<Fate>, k: nat): (r: nat)
    requires k <= |fates|
  {
    if k == 0 then 0 else Rank(fates, k - 1) + if fates[k - 1].Some? then 1 else 0
  }

  /** A module that has been loaded keeps its place among those that have, with its range and its arguments. */
  lemma {:induction false} SurvivorAt(ms: seq<Module>, fates: seq<Fate>, files: map<string, seq<byte>>, k: nat)
    requires Sensible(ms, fates, files) && k < |fates| && fates[k].Some?
    ensures var s := Survivors(ms, fates, files); var r := Rank(fates, k); var text := ms[k].text.value;
      && |s| == Rank(fates, |fates|) && r < |s|
      && s[r].start == fates[k].value && s[r].end == s[r].start + |files[NameOf(text)]|
      && s[r].text == ArgumentsOf(text)
    decreases |fates|
  {
    hide NameOf, ArgumentsOf;
    var n := |fates| - 1;
    SurvivorsCount(ms, fates, files);
    SurvivorsCount(ms, fates[..n], files);
    SameRank(fates, n, n);
    SameRank(fates, n, k);
    if k < n {
      SurvivorAt(ms, fates[..n], files, k);
    }
  }

  lemma {:induction false} SurvivorsCount(ms: seq<Module>, fates: seq<Fate>, files: map<string, seq<byte>>)
    requires Sensible(ms, fates, files)
    ensures |Survivors(ms, fates, files)| == Rank(fates, |fates|)
    decreases |fates|
  {
    hide NameOf, ArgumentsOf;
    if fates != [] {
      var n := |fates| - 1;
      SurvivorsCount(ms, fates[..n], files);
      SameRank(fates, n, n);
    }
  }

  lemma {:induction false} SameRank(fates: seq<Fate>, n: nat, k: nat)
    requires k <= n <= |fates|
    ensures Rank(fates[..n], k) == Rank(fates, k)
  {
    if k > 0 {
      SameRank(fates, n, k - 1);
    }
  }

  function AlignmentOf(pageAlign: bool): nat { if pageAlign then 4096 else 0 }

  /** When nothing fails: one module, of a file that there is or not, and that is read to its end or not. */
  function Step(rs: seq<Region>, known: bool, size: nat, whole: bool, alignment: nat): (seq<Region>, Fate) {
    if !known || size > 0xFFFF_FFFF then (rs, None) else
    var (rs', a) := Alloc(rs, 0, size, alignment, true);
    if a == 0 then (rs', None)
    else if whole then (rs', Some(a))
    else (Add(rs', a, size, true).0, None)
  }

  function StepOf(rs: seq<Region>, text: string, files: map<string, seq<byte>>, whole: set<string>,
                  pageAlign: bool): (seq<Region>, Fate) {
    var name := NameOf(text);
    Step(rs, name in files, if name in files then |files[name]| else 0, name in whole, AlignmentOf(pageAlign))
  }

  /** When nothing fails: which modules are loaded, and where. */
  function Fates(rs: seq<Region>, ms: seq<Module>, files: map<string, seq<byte>>, whole: set<string>,
                 pageAlign: bool): seq<Fate>
    requires forall k :: 0 <= k < |ms| ==> ms[k].text.Some?
    decreases |ms|
  {
    if ms == [] then [] else
    var (rs', f) := StepOf(rs, ms[0].text.value, files, whole, pageAlign);
    [f] + Fates(rs', ms[1..], files, whole, pageAlign)
  }

  /** What one module comes to when nothing fails, and what is free then. */
  lemma StepMeets(rs: seq<Region>, known: bool, size: nat, whole: bool, alignment: nat)
    requires Disjoint(rs) && Above1MB(rs) && ValidAlignment(alignment)
    ensures var (rs', f) := Step(rs, known, size, whole, alignment); var pad := Rounded(size) - size;
      && Disjoint(rs') && Above1MB(rs')
      && (f.Some? <==> known && size < 0x1_0000_0000 && whole && Placeable(rs, 0, size, alignment))
      && (f.Some? ==> Taken(rs, rs', f.value, Rounded(size))
                      && exists i :: 0 <= i < |rs| && Placement(rs[i], 0, size, alignment, f.value))
      && (f.None? ==> rs' == rs || exists x: nat :: Taken(rs, rs', x, pad))
  {
    hide Disjoint, Above1MB, Alloc, Add, Taken, Placeable, Placement, Total, Covered, ValidAlignment;
    var (t, a) := Alloc(rs, 0, size, alignment, true);
    AllocSucceedsIff(rs, 0, size, alignment, true);
    if a != 0 {
      AllocTakesThere(rs, 0, size, alignment);
      FreeAfterAlloc(rs, 0, size, alignment);
      TakenIsDisjoint(rs, t, a, Rounded(size));
      TakenIsDisjoint(rs, Add(t, a, size, true).0, a + size, Rounded(size) - size);
    }
  }

  lemma TakenIsDisjoint(rs: seq<Region>, rs': seq<Region>, a: nat, n: nat)
    requires Taken(rs, rs', a, n)
    ensures Disjoint(rs') && Above1MB(rs')
  {
  }

  /** What is free when the turn of module k comes, if nothing fails. */
  function FreeWhen(rs: seq<Region>, ms: seq<Module>, files: map<string, seq<byte>>, whole: set<string>,
                    pageAlign: bool,
                    k: nat): seq<Region>
    requires k <= |ms| && forall i :: 0 <= i < |ms| ==> ms[i].text.Some?
  {
    if k == 0 then rs
    else StepOf(FreeWhen(rs, ms, files, whole, pageAlign, k - 1), ms[k - 1].text.value, files, whole, pageAlign).0
  }

  /**
   When nothing fails, module k is loaded if and only if its file is known, smaller than 4 GB, and
   read to its end, and a single region that is free then has room for it; it then takes just that.
   */
  lemma LoadedIff(rs: seq<Region>, ms: seq<Module>, files: map<string, seq<byte>>, whole: set<string>, pageAlign: bool,
                  k: nat)
    requires Disjoint(rs) && Above1MB(rs) && k < |ms| && forall i :: 0 <= i < |ms| ==> ms[i].text.Some?
    ensures var (free, name) := (FreeWhen(rs, ms, files, whole, pageAlign, k), NameOf(ms[k].text.value));
      var (fates, alignment) := (Fates(rs, ms, files, whole, pageAlign), if pageAlign then 4096 else 0);
      && |fates| == |ms|
      && (fates[k].Some? <==> name in files && |files[name]| < 0x1_0000_0000 && name in whole
                              && Placeable(free, 0, |files[name]|, alignment))
      && (fates[k].Some? ==> Taken(free, FreeWhen(rs, ms, files, whole, pageAlign, k + 1), fates[k].value,
                                   Rounded(|files[name]|)))
  {
    hide Disjoint, Above1MB, Taken, Placeable, Step, Fates, NameOf, ValidAlignment, Rounded;
    PowersOfTwo();
    FreeIsDisjoint(rs, ms, files, whole, pageAlign, k);
    FateIs(rs, ms, files, whole, pageAlign, k);
    var (free, name) := (FreeWhen(rs, ms, files, whole, pageAlign, k), NameOf(ms[k].text.value));
    StepMeets(free, name in files, if name in files then |files[name]| else 0, name in whole, AlignmentOf(pageAlign));
  }

  lemma PowersOfTwo()
    ensures ValidAlignment(4096) && ValidAlignment(0)
  {
  }

  lemma {:induction false} FreeIsDisjoint(rs: seq<Region>, ms: seq<Module>, files: map<string, seq<byte>>,
                                          whole: set<string>, pageAlign: bool, k: nat)
    requires Disjoint(rs) && Above1MB(rs) && k <= |ms| && forall i :: 0 <= i < |ms| ==> ms[i].text.Some?
    ensures var free := FreeWhen(rs, ms, files, whole, pageAlign, k); Disjoint(free) && Above1MB(free)
  {
    hide Disjoint, Above1MB, Step, NameOf, ValidAlignment;
    if k > 0 {
      PowersOfTwo();
      FreeIsDisjoint(rs, ms, files, whole, pageAlign, k - 1);
      var (free, name) := (FreeWhen(rs, ms, files, whole, pageAlign, k - 1), NameOf(ms[k - 1].text.value));
      StepMeets(free, name in files, if name in files then |files[name]| else 0, name in whole, AlignmentOf(pageAlign));
    }
  }

  lemma {:induction false} FateIs(rs: seq<Region>, ms: seq<Module>, files: map<string, seq<byte>>, whole: set<string>,
                                  pageAlign: bool, k: nat)
    requires k < |ms| && forall i :: 0 <= i < |ms| ==> ms[i].text.Some?
    ensures var fates := Fates(rs, ms, files, whole, pageAlign);
      |fates| == |ms| &&
      fates[k] == StepOf(FreeWhen(rs, ms, files, whole, pageAlign, k), ms[k].text.value, files, whole, pageAlign).1
    decreases |ms|
  {
    hide StepOf;
    var (rs', f) := StepOf(rs, ms[0].text.value, files, whole, pageAlign);
    FatesCount(rs', ms[1..], files, whole, pageAlign);
    if k > 0 {
      FateIs(rs', ms[1..], files, whole, pageAlign, k - 1);
      FreeLater(rs, ms, files, whole, pageAlign, k);
    }
  }

  lemma {:induction false} FatesCount(rs: seq<Region>, ms: seq<Module>, files: map<string, seq<byte>>,
                                      whole: set<string>,
                                      pageAlign: bool)
    requires forall i :: 0 <= i < |ms| ==> ms[i].text.Some?
    ensures |Fates(rs, ms, files, whole, pageAlign)| == |ms|
    decreases |ms|
  {
    hide StepOf;
    if ms != [] {
      FatesCount(StepOf(rs, ms[0].text.value, files, whole, pageAlign).0, ms[1..], files, whole, pageAlign);
    }
  }

  lemma {:induction false} FreeLater(rs: seq<Region>, ms: seq<Module>, files: map<string, seq<byte>>,
                                     whole: set<string>,
                                     pageAlign: bool, k: nat)
    requires 0 < k <= |ms| && forall i :: 0 <= i < |ms| ==> ms[i].text.Some?
    ensures FreeWhen(rs, ms, files, whole, pageAlign, k)
         == FreeWhen(StepOf(rs, ms[0].text.value, files, whole, pageAlign).0, ms[1..], files, whole, pageAlign, k - 1)
  {
    hide StepOf;
    if k > 1 {
      FreeLater(rs, ms, files, whole, pageAlign, k - 1);
    }
  }

  // ---------------------------------------------------------------- what is held

  function Size(m: Module): nat { if m.start <= m.end then m.end - m.start else 0 }

  /** The ranges held by the modules, the latest first. */
  function Ranges(ms: seq<Module>): (r: seq<Region>)
    ensures |r| == |ms|
  {
    seq(|ms|, k requires 0 <= k < |ms| => Region(ms[|ms| - 1 - k].start, Size(ms[|ms| - 1 - k])))
  }

  lemma RangesPush(ms: seq<Module>, m: Module)
    ensures Ranges(ms + [m]) == [Region(m.start, Size(m))] + Ranges(ms)
  {
  }

  /** Modules held at the same time do not share a byte. */
  ghost predicate Apart(ms: seq<Module>) {
    forall j, k :: 0 <= j < k < |ms| ==> ms[j].end <= ms[k].start || ms[k].end <= ms[j].start
  }

  lemma ModulesApart(p: Phys, rs: seq<Region>, ms: seq<Module>)
    requires Holding(p, rs, Ranges(ms)) && forall k :: 0 <= k < |ms| ==> ms[k].start <= ms[k].end
    ensures Apart(ms)
  {
    hide Holding;
    forall j, k | 0 <= j < k < |ms| ensures ms[j].end <= ms[k].start || ms[k].end <= ms[j].start {
      var (x, y) := (Ranges(ms)[|ms| - 1 - j], Ranges(ms)[|ms| - 1 - k]);
      assert x == Region(ms[j].start, Size(ms[j])) && y == Region(ms[k].start, Size(ms[k]));
      HeldApart(p, rs, Ranges(ms), |ms| - 1 - j, |ms| - 1 - k);
    }
  }

  /** The files of the modules that were not loaded have sizes that are multiples of 4. */
  predicate FailuresAreMultiples(ms: seq<Module>, fates: seq<Fate>, files: map<string, seq<byte>>) {
    Sensible(ms, fates, files) &&
    forall k {:trigger fates[k]} :: 0 <= k < |fates| && fates[k].None? && NameOf(ms[k].text.value) in files ==>
      |files[NameOf(ms[k].text.value)]| % 4 == 0
  }

  /** At most one piece of padding has been lost for each module that failed. */
  ghost predicate FewLost(lost: seq<Region>, ms: seq<Module>, fates: seq<Fate>, files: map<string, seq<byte>>) {
    && Sensible(ms, fates, files) && |lost| + |Survivors(ms, fates, files)| <= |fates|
    && (FailuresAreMultiples(ms, fates, files) ==> lost == [])
  }

  lemma FewLostNothing(ms: seq<Module>, files: map<string, seq<byte>>)
    ensures FewLost([], ms, [], files)
  {
  }

  /** A module that is loaded loses nothing; one that is not, its padding at most. */
  lemma FewLostStep(lost: seq<Region>, lost': seq<Region>, ms: seq<Module>, fates: seq<Fate>, f: Fate,
                    files: map<string, seq<byte>>)
    requires FewLost(lost, ms, fates, files) && |fates| < |ms| && ms[|fates|].text.Some?
    requires f.Some? ==> NameOf(ms[|fates|].text.value) in files && lost' == lost
    requires lost' != lost ==>
               && NameOf(ms[|fates|].text.value) in files && |lost'| <= |lost| + 1
               && |files[NameOf(ms[|fates|].text.value)]| % 4 != 0
    ensures FewLost(lost', ms, fates + [f], files)
  {
    hide NameOf, Survivors;
    SurvivorsPush(ms, fates, files, f);
    var g := fates + [f];
    assert g[|fates|] == f && forall k :: 0 <= k < |fates| ==> g[k] == fates[k];
  }

  // ---------------------------------------------------------------- loading

  /** The files of the modules loaded so far are in memory, page-aligned if asked, in ranges that are no longer free. */
  ghost predicate InMemory(ram: seq<byte>, rs: seq<Region>, ms: seq<Module>, fates: seq<Fate>, files: map<string,
                           seq<byte>>, pageAlign: bool) {
    Sensible(ms, fates, files) &&
    forall k {:trigger fates[k]} :: 0 <= k < |fates| && fates[k].Some? ==>
      var a, f := fates[k].value, files[NameOf(ms[k].text.value)];
      && a + |f| <= |ram| && ram[a..a + |f|] == f && (pageAlign ==> a % 4096 == 0)
      && forall x :: a <= x < a + |f| ==> !Covered(rs, x)
  }

  /** What loading one module came to; address 0 means that it failed. */
  ghost predicate Tried(rs: seq<Region>, b: seq<byte>, rs': seq<Region>, b': seq<byte>, known: bool, f: seq<byte>,
                        alignment: nat, addr: nat) {
    var (t, a) := Alloc(rs, 0, |f|, alignment, true);
    && |b'| == |b|
    && (addr != 0 ==> known && addr == a && rs' == t && addr + Rounded(|f|) <= |b| && b' == Spliced(b, addr, f))
    && (addr == 0 ==>
          (rs' == rs && b' == b)
          || (known && a != 0 && rs' == Add(t, a, |f|, true).0 && SameOutside(b, b', a, Rounded(|f|))))
  }

  /** Where the loop stands when the first modules have met their fates. */
  ghost predicate Progress(rs0: seq<Region>, b0: seq<byte>, rs: seq<Region>, b: seq<byte>, ms: seq<Module>,
                           fates: seq<Fate>,
                           files: map<string, seq<byte>>, pageAlign: bool, p: Phys) {
    && Disjoint(rs) && Above1MB(rs) && Within(rs, rs0) && OnlyFreeChanged(rs0, b0, b)
    && InMemory(b, rs, ms, fates, files, pageAlign)
    && Holding(p, rs0, Ranges(Survivors(ms, fates, files))) && p.free == rs && FewLost(p.lost, ms, fates, files)
  }

  lemma Starts(rs: seq<Region>, b: seq<byte>, ms: seq<Module>, files: map<string, seq<byte>>, pageAlign: bool)
    requires Disjoint(rs) && Above1MB(rs)
    ensures Progress(rs, b, rs, b, ms, [], files, pageAlign, Phys(rs, [], [], []))
  {
    HoldingNothing(rs);
    FewLostNothing(ms, files);
  }

  lemma InMemoryStays(b: seq<byte>, b': seq<byte>, rs: seq<Region>, rs': seq<Region>, a: nat, n: nat,
                      ms: seq<Module>, fates: seq<Fate>, files: map<string, seq<byte>>, pageAlign: bool)
    requires InMemory(b, rs, ms, fates, files, pageAlign) && SameOutside(b, b', a, n) && Within(rs', rs)
    requires Free(rs, a, n)
    ensures InMemory(b', rs', ms, fates, files, pageAlign)
  {
    hide Covered;
    forall k {:trigger fates[k]} | 0 <= k < |fates| && fates[k].Some?
      ensures var c, f := fates[k].value, files[NameOf(ms[k].text.value)];
        b'[c..c + |f|] == f && forall x :: c <= x < c + |f| ==> !Covered(rs', x)
    {
      var c, f := fates[k].value, files[NameOf(ms[k].text.value)];
      forall j | 0 <= j < |f| ensures b'[c..c + |f|][j] == f[j] {
        assert !Covered(rs, c + j);
        assert b'[c + j] == b[c + j] == b[c..c + |f|][j];
      }
    }
  }

  lemma InMemoryPush(b: seq<byte>, rs: seq<Region>, ms: seq<Module>, fates: seq<Fate>, files: map<string, seq<byte>>,
                     pageAlign: bool, f: Fate)
    requires InMemory(b, rs, ms, fates, files, pageAlign) && |fates| < |ms| && ms[|fates|].text.Some?
    requires f.Some? ==>
               var name := NameOf(ms[|fates|].text.value);
               && name in files && f.value + |files[name]| <= |b| && b[f.value..f.value + |files[name]|] == files[name]
               && (pageAlign ==> f.value % 4096 == 0) && forall x :: f.value <= x < f.value + |files[name]| ==>
                     !Covered(rs, x)
    ensures InMemory(b, rs, ms, fates + [f], files, pageAlign)
  {
    hide Covered;
    var g := fates + [f];
    assert forall k :: 0 <= k < |g| ==> g[k] == if k < |fates| then fates[k] else f;
  }

  lemma AllocIsAligned(rs: seq<Region>, size: nat, pageAlign: bool)
    requires Above1MB(rs)
    ensures pageAlign ==> Alloc(rs, 0, size, AlignmentOf(pageAlign), true).1 % 4096 == 0
  {
    hide Alloc;
    AllocSucceedsIff(rs, 0, size, AlignmentOf(pageAlign), true);
  }

  lemma GoesOn(rs0: seq<Region>, b0: seq<byte>, rs: seq<Region>, b: seq<byte>, rs': seq<Region>, b': seq<byte>,
               ms: seq<Module>, fates: seq<Fate>,
               files: map<string, seq<byte>>, pageAlign: bool, p: Phys, addr: nat) returns (q: Phys)
    requires Progress(rs0, b0, rs, b, ms, fates, files, pageAlign, p) && Addressable(rs, LAST_BYTE)
    requires |fates| < |ms| && ms[|fates|].text.Some? && NameOf(ms[|fates|].text.value) in files && addr != 0
    requires Tried(rs, b, rs', b', true, files[NameOf(ms[|fates|].text.value)], AlignmentOf(pageAlign), addr)
    ensures Progress(rs0, b0, rs', b', ms, fates + [Some(addr)], files, pageAlign, q) && Addressable(rs', LAST_BYTE)
  {
    hide Alloc, Add, Covered, Disjoint, Above1MB, Total, InMemory, OnlyFreeChanged, Holding, SameOutside, Spliced,
      Survivors, NameOf, Free, FewLost;
    var m, f := ms[|fates|], files[NameOf(ms[|fates|].text.value)];
    AllocIsFree(rs, 0, |f|, AlignmentOf(pageAlign), LAST_BYTE);
    AllocatedWasFree(rs0, rs, |f|, AlignmentOf(pageAlign));
    AllocIsAligned(rs, |f|, pageAlign);
    SplicedOutside(b, addr, f, Rounded(|f|));
    SplicedAt(b, addr, f);
    StillWithin(rs0, rs, rs', addr, Rounded(|f|));
    TakenIsGone(rs, rs', addr, Rounded(|f|));
    ChangesAdd(rs0, b0, b, b', addr, Rounded(|f|));
    InMemoryStays(b, b', rs, rs', addr, Rounded(|f|), ms, fates, files, pageAlign);
    InMemoryPush(b', rs', ms, fates, files, pageAlign, Some(addr));
    SensibleOf(b, rs, ms, fates, files, pageAlign);
    SurvivorsPush(ms, fates, files, Some(addr));
    RangesPush(Survivors(ms, fates, files), Loaded(m, addr, files));
    HoldOne(p, rs0, Ranges(Survivors(ms, fates, files)), 0, |f|, AlignmentOf(pageAlign));
    FewLostStep(p.lost, p.lost, ms, fates, Some(addr), files);
    q := Taking(p, 0, |f|, AlignmentOf(pageAlign));
  }

  lemma AllocatedWasFree(rs0: seq<Region>, rs: seq<Region>, size: nat, alignment: nat)
    requires Disjoint(rs) && Above1MB(rs) && Addressable(rs, LAST_BYTE) && Within(rs, rs0) && ValidAlignment(alignment)
    requires Alloc(rs, 0, size, alignment, true).1 != 0
    ensures var a := Alloc(rs, 0, size, alignment, true).1; Free(rs, a, Rounded(size)) && Free(rs0, a, Rounded(size))
  {
    hide Covered, Alloc, Disjoint, Above1MB, Total;
    AllocIsFree(rs, 0, size, alignment, LAST_BYTE);
  }

  lemma SensibleOf(b: seq<byte>, rs: seq<Region>, ms: seq<Module>, fates: seq<Fate>, files: map<string, seq<byte>>,
                   pageAlign: bool)
    requires InMemory(b, rs, ms, fates, files, pageAlign)
    ensures Sensible(ms, fates, files)
  {
  }

  lemma SplicedAt(b: seq<byte>, at: nat, data: seq<byte>)
    requires at + |data| <= |b|
    ensures Spliced(b, at, data)[at..at + |data|] == data
  {
  }

  lemma TakenIsGone(rs: seq<Region>, rs': seq<Region>, a: nat, n: nat)
    requires Taken(rs, rs', a, n)
    ensures Within(rs', rs) && forall x :: a <= x < a + n ==> !Covered(rs', x)
  {
    hide Covered, Disjoint, Above1MB, Total;
  }

  lemma FallsAway(rs0: seq<Region>, b0: seq<byte>, rs: seq<Region>, b: seq<byte>, rs': seq<Region>, b': seq<byte>,
                  ms: seq<Module>, fates: seq<Fate>,
                  files: map<string, seq<byte>>, pageAlign: bool, p: Phys, known: bool, f: seq<byte>) returns (q: Phys)
    requires Progress(rs0, b0, rs, b, ms, fates, files, pageAlign, p) && Addressable(rs, LAST_BYTE)
    requires |fates| < |ms| && ms[|fates|].text.Some?
    requires known ==> NameOf(ms[|fates|].text.value) in files && f == files[NameOf(ms[|fates|].text.value)]
    requires Tried(rs, b, rs', b', known, f, AlignmentOf(pageAlign), 0)
    ensures Progress(rs0, b0, rs', b', ms, fates + [None], files, pageAlign, q) && Addressable(rs', LAST_BYTE)
  {
    hide Alloc, Add, Covered, Disjoint, Above1MB, Total, InMemory, OnlyFreeChanged, Holding, SameOutside, Spliced,
      Survivors, NameOf, Free, FewLost;
    q := p;
    SensibleOf(b, rs, ms, fates, files, pageAlign);
    SurvivorsPush(ms, fates, files, None);
    assert Survivors(ms, fates, files) + [] == Survivors(ms, fates, files);
    if rs' == rs && b' == b {
      InMemoryPush(b, rs, ms, fates, files, pageAlign, None);
      FewLostStep(p.lost, p.lost, ms, fates, None, files);
    } else {
      var al, held := AlignmentOf(pageAlign), Ranges(Survivors(ms, fates, files));
      AllocatedWasFree(rs0, rs, |f|, al);
      var (t, a) := Alloc(rs, 0, |f|, al, true);
      FreeAfterAlloc(rs, 0, |f|, al);
      StillWithin(rs0, rs, rs', a + |f|, Rounded(|f|) - |f|);
      StillAddressable(rs, rs', LAST_BYTE);
      ChangesAdd(rs0, b0, b, b', a, Rounded(|f|));
      InMemoryStays(b, b', rs, rs', a, Rounded(|f|), ms, fates, files, pageAlign);
      InMemoryPush(b', rs', ms, fates, files, pageAlign, None);
      HoldOne(p, rs0, held, 0, |f|, al);
      assert ([Region(a, |f|)] + held)[..0] + ([Region(a, |f|)] + held)[1..] == held;
      q := LetGo(Taking(p, 0, |f|, al), rs0, [Region(a, |f|)] + held, 0);
      PaddingLost(p.lost, a, |f|);
      FewLostStep(p.lost, q.lost, ms, fates, None, files);
    }
  }

  lemma PaddingLost(lost: seq<Region>, a: nat, n: nat)
    ensures var l := Push(lost, Region(a + n, Rounded(n) - n)); l != lost ==> |l| <= |lost| + 1 && n % 4 != 0
  {
  }

  lemma ProgressMeans(rs0: seq<Region>, b0: seq<byte>, rs: seq<Region>, b: seq<byte>, ms: seq<Module>, fates: seq<Fate>,
                      files: map<string, seq<byte>>, pageAlign: bool, p: Phys)
    requires Progress(rs0, b0, rs, b, ms, fates, files, pageAlign, p)
    ensures Disjoint(rs) && Above1MB(rs) && Sensible(ms, fates, files)
    ensures OnlyFreeChanged(rs0, b0, b) && InMemory(b, rs, ms, fates, files, pageAlign)
    ensures Holding(p, rs0, Ranges(Survivors(ms, fates, files))) && p.free == rs && Apart(Survivors(ms, fates, files))
    ensures FewLost(p.lost, ms, fates, files)
  {
    SurvivorsAreRanges(ms, fates, files);
    ModulesApart(p, rs0, Survivors(ms, fates, files));
  }

  lemma {:induction false} SurvivorsAreRanges(ms: seq<Module>, fates: seq<Fate>, files: map<string, seq<byte>>)
    requires Sensible(ms, fates, files)
    ensures forall k :: 0 <= k < |Survivors(ms, fates, files)| ==>
              Survivors(ms, fates, files)[k].start <= Survivors(ms, fates, files)[k].end
    ensures |Survivors(ms, fates, files)| <= |fates|
    decreases |fates|
  {
    if fates != [] {
      SurvivorsAreRanges(ms, fates[..|fates| - 1], files);
    }
  }

  lemma FatesStep(rs: seq<Region>, ms: seq<Module>, k: nat, files: map<string, seq<byte>>, whole: set<string>,
                  pageAlign: bool)
    requires k < |ms| && forall i :: 0 <= i < |ms| ==> ms[i].text.Some?
    ensures var (rs', f) := StepOf(rs, ms[k].text.value, files, whole, pageAlign);
      Fates(rs, ms[k..], files, whole, pageAlign) == [f] + Fates(rs', ms[k + 1..], files, whole, pageAlign)
  {
    hide StepOf, NameOf;
    assert ms[k..][0] == ms[k] && ms[k..][1..] == ms[k + 1..];
  }

  /** memmove towards the front. */
  method MoveDown(a: array<Module>, at: nat, n: nat)
    requires at + 1 + n <= a.Length
    modifies a
    ensures a[..at] == old(a[..at]) && a[at..at + n] == old(a[at + 1..at + 1 + n])
    ensures a[at + 1 + n..] == old(a[at + 1 + n..])
  {
    for k := 0 to n
      invariant forall i :: 0 <= i < a.Length ==> a[i] == if at <= i < at + k then old(a[i + 1]) else old(a[i])
    {
      a[at + k] := a[at + k + 1];
    }
  }

  /** The array while modules are being loaded: those that stay, those to come, and what lies behind. */
  predicate Layout(a: seq<Module>, i: nat, n: nat, end: nat, kept: seq<Module>, rest: seq<Module>, tail: seq<Module>) {
    i <= n <= end <= |a| && a[..i] == kept && a[i..n] == rest && a[end..] == tail
  }

  lemma Kept(a: seq<Module>, i: nat, n: nat, end: nat, kept: seq<Module>, rest: seq<Module>, tail: seq<Module>,
             m: Module)
    requires Layout(a, i, n, end, kept, rest, tail) && i < n
    ensures rest != [] && rest[0] == a[i] && Layout(a[i := m], i + 1, n, end, kept + [m], rest[1..], tail)
  {
  }

  lemma Deleted(a: seq<Module>, b: seq<Module>, i: nat, n: nat, end: nat, kept: seq<Module>, rest: seq<Module>,
                tail: seq<Module>)
    requires Layout(a, i, n, end, kept, rest, tail) && i < n && |b| == |a|
    requires b[..i] == a[..i] && b[i..n - 1] == a[i + 1..n] && b[n..] == a[n..]
    ensures Layout(b, i, n - 1, end, kept, rest[1..], tail)
  {
    assert b[end..] == b[n..][end - n..];
  }

  /** i++ and i-- on 32 bits: below zero comes the largest value, and after it zero again. */
  function Up(i: nat): (r: nat)
    requires i <= 0xFFFF_FFFF
    ensures r == if i == 0xFFFF_FFFF then 0 else i + 1
  {
    (i + 1) % 0x1_0000_0000
  }

  function Down(i: nat): (r: nat)
    requires i <= 0xFFFF_FFFF
    ensures r == if i == 0 then 0xFFFF_FFFF else i - 1
  {
    (i - 1) % 0x1_0000_0000
  }

  lemma FatesGrow(all: seq<Fate>, f0: seq<Fate>, x: Fate, rest: seq<Fate>)
    requires all == f0 + ([x] + rest)
    ensures all == (f0 + [x]) + rest
  {
  }

  class ModuleLoader {
    const phys: PhysMemory
    const ram: array<byte>
    const device: Device
    const files: map<string, ImageFile>

    constructor (phys: PhysMemory, ram: array<byte>, device: Device, files: map<string, ImageFile>)
      ensures this.phys == phys && this.ram == ram && this.device == device && this.files == files
    {
      this.phys, this.ram, this.device, this.files := phys, ram, device, files;
    }

    ghost predicate Sound() {
      forall n :: n in files ==> files[n].Sound() && files[n].device == device
    }

    ghost predicate Valid()
      reads phys, device.cache, device.cache.items
    {
      && Disjoint(phys.regions) && Above1MB(phys.regions) && Addressable(phys.regions, LAST_BYTE)
      && ram.Length == ADDRESS_SPACE
      && Sound() && device.Valid()
    }

    ghost function Parts(): set<object> {
      {device.cache, device.cache.items, device.env} + set n, o | n in files && o in files[n].Parts() :: o
    }

    /** What the files hold. */
    ghost function Contents(): (r: map<string, seq<byte>>)
      requires Sound()
      ensures r.Keys == files.Keys
    {
      map n | n in files :: files[n].Content()
    }

    /** The files that an undisturbed read delivers to their end. */
    ghost function Whole(): set<string>
      requires Sound()
    {
      set n | n in files && files[n].Whole(0, files[n].Size())
    }

    lemma DeviceParts()
      ensures device.cache in Parts() && device.cache.items in Parts() && device.env in Parts()
    {
    }

    lemma KnownFile(name: string)
      requires Sound() && name in files
      ensures files[name].Sound() && files[name].Wired() && files[name].device == device
      ensures files[name].Parts() <= Parts()
      ensures Contents()[name] == files[name].Content() && |files[name].Content()| == files[name].Size()
      ensures name in Whole() <==> files[name].Whole(0, files[name].Size())
    {
      hide ImageFile.Sound, ImageFile.Content, ImageFile.Whole, ImageFile.Wired, ImageFile.Size, ImageFile.Parts;
      WiredFile(files[name]);
      forall o | o in files[name].Parts() ensures o in Parts() {}
    }

    lemma WiredFile(file: ImageFile)
      requires file.Sound()
      ensures file.Wired()
    {
    }

    /** The file's bytes, for a name that there is no file of: none. */
    ghost function FileOf(name: string): seq<byte>
      requires Sound()
    {
      if name in files then Contents()[name] else []
    }

    /** A module's file is opened, allocated and read. */
    method LoadFile(file: ImageFile, alignment: nat) returns (addr: nat)
      requires Valid() && file.Sound() && file.device == device && ValidAlignment(alignment)
      modifies phys, ram, file.Parts()
      ensures device.Valid() && old(device.env.asked) <= device.env.asked
      ensures Tried(old(phys.regions), old(ram[..]), phys.regions, ram[..], true, file.Content(), alignment, addr)
      ensures device.env.Smooth(old(device.env.asked), device.env.asked) ==>
                (phys.regions, if addr != 0 then Some(addr) else None)
                == Step(old(phys.regions), true, file.Size(), file.Whole(0, file.Size()), alignment)
    {
      hide Alloc, Add, Covered, Disjoint, Above1MB, Addressable, Total, Taken, Spliced, SameOutside, Sound,
        Device.Valid, ImageFile.Valid, ImageFile.Content, ImageFile.OnTrack, ImageFile.Whole, ImageFile.Cursor,
        ImageFile.Sound, ImageFile.Size;
      ghost var b0 := ram[..];
      WiredFile(file);
      file.Open();
      var size := file.Size();
      if size > 0xFFFF_FFFF {
        return 0;
      }
      AllocIsFree(phys.regions, 0, size, alignment, LAST_BYTE);
      var mem := phys.PhysAlloc(0, size, alignment, true);
      if mem == 0 {
        return 0;
      }
      var read := file.ReadFile(ram, mem, size);
      file.IsWired();
      OutsideWider(b0, ram[..], mem, size, Rounded(size));
      if read != size {
        phys.PhysFree(mem, size, true);
        return 0;
      }
      assert file.Content()[0..size] == file.Content();
      addr := mem;
    }

    /** One module: its file is looked up and loaded, or nothing happens. */
    method LoadModule(name: string, pageAlign: bool) returns (addr: nat)
      requires Valid()
      modifies phys, ram, Parts()
      ensures device.Valid() && old(device.env.asked) <= device.env.asked
      ensures Tried(old(phys.regions), old(ram[..]), phys.regions, ram[..],
                    name in files, FileOf(name), AlignmentOf(pageAlign), addr)
      ensures device.env.Smooth(old(device.env.asked), device.env.asked) ==>
                (phys.regions, if addr != 0 then Some(addr) else None)
                == Step(old(phys.regions), name in files, |FileOf(name)|, name in Whole(), AlignmentOf(pageAlign))
    {
      hide Alloc, Add, Covered, Disjoint, Above1MB, Addressable, Total, Spliced, SameOutside, Contents, Whole, Parts,
        Device.Valid, Sound, Step, Oracle.Smooth, ImageFile.Content, ImageFile.Whole, ImageFile.Parts,
        ImageFile.Sound, ImageFile.Size, ImageFile.Wired;
      DeviceParts();
      ghost var start := device.env.asked;
      var ok := device.env.Ask();
      if !ok || name !in files {
        NothingTried(phys.regions, ram[..], name in files, FileOf(name), AlignmentOf(pageAlign), name in Whole(),
                     start);
        return 0;
      }
      KnownFile(name);
      ghost var between := device.env.asked;
      addr := LoadFile(files[name], AlignmentOf(pageAlign));
      if device.env.Smooth(start, device.env.asked) {
        device.env.SmoothParts(start, between, device.env.asked);
      }
    }

    /** The file could not be opened. */
    lemma NothingTried(rs: seq<Region>, b: seq<byte>, known: bool, f: seq<byte>, alignment: nat, whole: bool,
                       start: nat)
      requires known ==> !device.env.answer(start)
      ensures Tried(rs, b, rs, b, known, f, alignment, 0)
      ensures device.env.Smooth(start, start + 1) ==> Step(rs, known, |f|, whole, alignment) == (rs, None)
    {
    }

    /**
     LoadModules.  The modules that could be loaded are left at the front of the array, in their
     original order, each with its range and its arguments.  Their files are in memory, in ranges
     that are disjoint and page-aligned if that is asked.  What the others took is free again but
     for the bytes that rounding added: at most one piece of three bytes for each that failed, and
     none when the sizes of those that failed are multiples of 4.
     */
    method LoadModules(mods: array<Module>, nModules: nat, pageAlign: bool)
      returns (count: nat, ghost fates: seq<Fate>, ghost p: Phys)
      requires Valid() && nModules <= mods.Length < 0x1_0000_0000
      requires forall k :: 0 <= k < nModules ==> mods[k].text.Some?
      modifies phys, ram, mods, Parts()
      ensures Valid() && |fates| == nModules && Sensible(old(mods[..nModules]), fates, Contents())
      ensures count <= nModules && mods[..count] == Survivors(old(mods[..nModules]), fates, Contents())
      ensures Apart(mods[..count])
      ensures mods[nModules..] == old(mods[nModules..])
      ensures InMemory(ram[..], phys.regions, old(mods[..nModules]), fates, Contents(), pageAlign)
      ensures Holding(p, old(phys.regions), Ranges(mods[..count])) && p.free == phys.regions
      ensures |p.lost| + count <= nModules && Total(p.lost) <= 3 * (nModules - count)
      ensures FailuresAreMultiples(old(mods[..nModules]), fates, Contents()) ==> p.lost == []
      ensures OnlyFreeChanged(old(phys.regions), old(ram[..]), ram[..])
      ensures device.env.Smooth(old(device.env.asked), device.env.asked) ==>
                fates == Fates(old(phys.regions), old(mods[..nModules]), Contents(), Whole(), pageAlign)
    {
      hide Alloc, Add, Covered, Disjoint, Above1MB, Addressable, Total, InMemory, OnlyFreeChanged, Holding, Progress,
        Tried, Fates, FewLost, Survivors, Sensible, Sound, Contents, Whole, Parts, Device.Valid, Oracle.Smooth,
        NameOf, ArgumentsOf, Layout, Apart, Up, Down, Ranges, FailuresAreMultiples, Scraps;
      ghost var files, rs0, b0, start := Contents(), phys.regions, ram[..], device.env.asked;
      ghost var ms, tail := mods[..nModules], mods[nModules..];
      ModulesAreNoParts(mods);
      fates, p := [], Phys(rs0, [], [], []);
      Starts(rs0, b0, ms, files, pageAlign);
      ProgressMeans(rs0, b0, rs0, b0, ms, [], files, pageAlign, p);
      NoSurvivors(ms, files);
      LayoutBegins(mods[..], nModules);
      FatesBegin(rs0, ms, pageAlign);
      var i: nat, n: nat := 0, nModules;
      while i < n
        invariant 0 <= i <= n <= nModules && |fates| + (n - i) == nModules
        invariant Valid() && start <= device.env.asked && Sensible(ms, fates, files)
        invariant Layout(mods[..], i, n, nModules, Survivors(ms, fates, files), ms[|fates|..], tail)
        invariant Progress(rs0, b0, phys.regions, ram[..], ms, fates, files, pageAlign, p)
        invariant device.env.Smooth(start, device.env.asked) ==>
                    Fates(rs0, ms, files, Whole(), pageAlign)
                          == fates + Fates(phys.regions, ms[|fates|..], files, Whole(), pageAlign)
        decreases n - i
      {
        ghost var before, f0 := device.env.asked, fates;
        var text := Current(mods, i, n, nModules, Survivors(ms, fates, files), ms[|fates|..], tail);
        var addr;
        addr, fates, p := Attempt(text, pageAlign, rs0, b0, ms, fates, p);
        if device.env.Smooth(start, device.env.asked) {
          device.env.SmoothParts(start, before, device.env.asked);
          FatesGrow(Fates(rs0, ms, files, Whole(), pageAlign), f0, fates[|f0|],
                    Fates(phys.regions, ms[|fates|..], files, Whole(), pageAlign));
        }
        i, n := Settle(mods, i, n, text, addr, nModules, ms, f0, tail);
      }
      count := n;
      ProgressMeans(rs0, b0, phys.regions, ram[..], ms, fates, files, pageAlign, p);
      NoMoreFates(phys.regions, pageAlign);
      LayoutEnds(mods[..], i, nModules, Survivors(ms, fates, files), ms[|fates|..], tail);
      FewLostMeans(p, rs0, ms, fates, files);
      assert mods[..][..count] == mods[..count] && mods[..][nModules..] == mods[nModules..];
    }

    lemma ModulesAreNoParts(mods: array<Module>)
      ensures mods !in Parts()
    {
    }

    /** When nothing fails, module k meets fate f, and the others theirs with what is free then. */
    ghost predicate Foretold(rs: seq<Region>, ms: seq<Module>, k: nat, pageAlign: bool, rs': seq<Region>, f: Fate)
      requires Sound() && k < |ms| && forall i :: 0 <= i < |ms| ==> ms[i].text.Some?
    {
      Fates(rs, ms[k..], Contents(), Whole(), pageAlign)
      == [f] + Fates(rs', ms[k + 1..], Contents(), Whole(), pageAlign)
    }

    lemma FatesBegin(rs: seq<Region>, ms: seq<Module>, pageAlign: bool)
      requires Sound() && forall k :: 0 <= k < |ms| ==> ms[k].text.Some?
      ensures Fates(rs, ms, Contents(), Whole(), pageAlign) == [] + Fates(rs, ms[0..], Contents(), Whole(), pageAlign)
    {
      hide Fates, Contents, Whole, Sound;
      assert ms[0..] == ms;
    }

    lemma FewLostMeans(p: Phys, rs: seq<Region>, ms: seq<Module>, fates: seq<Fate>, files: map<string, seq<byte>>)
      requires FewLost(p.lost, ms, fates, files) && Holding(p, rs, Ranges(Survivors(ms, fates, files)))
      ensures var count := |Survivors(ms, fates, files)|;
        |p.lost| + count <= |fates| && Total(p.lost) <= 3 * (|fates| - count)
      ensures FailuresAreMultiples(ms, fates, files) ==> p.lost == []
    {
      hide Survivors, FailuresAreMultiples, Total, Covered, PhysInv, AllBytes;
      ScrapsAreFew(p.lost);
    }

    method Current(mods: array<Module>, i: nat, n: nat, ghost end: nat, ghost kept: seq<Module>,
                   ghost rest: seq<Module>, ghost tail: seq<Module>)
      returns (text: string)
      requires Layout(mods[..], i, n, end, kept, rest, tail) && i < n && forall k :: 0 <= k < |rest| ==>
                rest[k].text.Some?
      ensures rest != [] && Some(text) == rest[0].text
    {
      assert rest[0] == mods[..][i];
      text := mods[i].text.value;
    }

    /** The module at i has been tried: it stays, or the array closes up. */
    method Settle(mods: array<Module>, i: nat, n: nat, text: string, addr: nat,
                  ghost end: nat, ghost ms: seq<Module>, ghost f0: seq<Fate>, ghost tail: seq<Module>)
      returns (i': nat, n': nat)
      requires Sound() && Sensible(ms, f0, Contents()) && i < n <= end <= mods.Length < 0x1_0000_0000
      requires |f0| < |ms| && ms[|f0|].text == Some(text) && (addr != 0 ==> NameOf(text) in files)
      requires Layout(mods[..], i, n, end, Survivors(ms, f0, Contents()), ms[|f0|..], tail)
      modifies mods
      ensures var fates := f0 + [if addr != 0 then Some(addr) else None];
        && i' <= n' <= n && n' - i' == n - i - 1 && Sensible(ms, fates, Contents())
        && Layout(mods[..], i', n', end, Survivors(ms, fates, Contents()), ms[|fates|..], tail)
    {
      hide *;
      ghost var kept, rest := Survivors(ms, f0, Contents()), ms[|f0|..];
      Settled(ms, f0, Contents(), text, addr);
      i', n' := i, n;
      if addr != 0 {
        KnownFile(NameOf(text));
        var m := Module(addr, addr + files[NameOf(text)].Size(), ArgumentsOf(text));
        Keep(mods, i, n, m, end, kept, rest, tail);
      } else {
        Delete(mods, i, n, end, kept, rest, tail);
        n' := n - 1;
        i' := Down(i);
      }
      i' := Up(i');
    }

    lemma Settled(ms: seq<Module>, f0: seq<Fate>, files: map<string, seq<byte>>, text: string, addr: nat)
      requires Sensible(ms, f0, files) && |f0| < |ms| && ms[|f0|].text == Some(text)
      requires (addr != 0 ==> NameOf(text) in files)
      ensures var fates := f0 + [if addr != 0 then Some(addr) else None];
        && Sensible(ms, fates, files) && ms[|f0|..][1..] == ms[|fates|..]
        && (addr == 0 ==> Survivors(ms, fates, files) == Survivors(ms, f0, files))
        && (addr != 0 ==>
              Survivors(ms, fates, files)
                    == Survivors(ms, f0, files) + [Module(addr, addr + |files[NameOf(text)]|, ArgumentsOf(text))])
    {
      hide Survivors, NameOf, ArgumentsOf;
      SurvivorsPush(ms, f0, files, if addr != 0 then Some(addr) else None);
      assert Survivors(ms, f0, files) + [] == Survivors(ms, f0, files);
    }

    /** One module is tried; its fate is the next one. */
    method Attempt(text: string, pageAlign: bool, ghost rs0: seq<Region>, ghost b0: seq<byte>, ghost ms: seq<Module>,
                   ghost f0: seq<Fate>, ghost p0: Phys)
      returns (addr: nat, ghost fates: seq<Fate>, ghost p: Phys)
      requires Valid() && |f0| < |ms| && ms[|f0|].text == Some(text)
      requires Progress(rs0, b0, phys.regions, ram[..], ms, f0, Contents(), pageAlign, p0)
      requires forall k :: 0 <= k < |ms| ==> ms[k].text.Some?
      modifies phys, ram, Parts()
      ensures Valid() && old(device.env.asked) <= device.env.asked
      ensures fates == f0 + [if addr != 0 then Some(addr) else None]
      ensures Sensible(ms, f0, Contents()) && Sensible(ms, fates, Contents()) && (addr != 0 ==> NameOf(text) in files)
      ensures Progress(rs0, b0, phys.regions, ram[..], ms, fates, Contents(), pageAlign, p)
      ensures device.env.Smooth(old(device.env.asked), device.env.asked) ==>
                Foretold(old(phys.regions), ms, |f0|, pageAlign, phys.regions, if addr != 0 then Some(addr) else None)
    {
      hide Alloc, Add, Covered, Disjoint, Above1MB, Addressable, Total, InMemory, OnlyFreeChanged, Holding, Progress,
        Tried, Fates, Step, FewLost, Survivors, Sensible, Sound, Contents, Whole, Parts, Device.Valid, Oracle.Smooth,
        NameOf, ArgumentsOf, Apart, Ranges, FailuresAreMultiples;
      ghost var files, rs, b, k := Contents(), phys.regions, ram[..], |f0|;
      FatesStep(rs, ms, k, files, Whole(), pageAlign);
      ProgressMeans(rs0, b0, rs, b, ms, f0, files, pageAlign, p0);
      addr := LoadModule(NameOf(text), pageAlign);
      fates := f0 + [if addr != 0 then Some(addr) else None];
      if addr != 0 {
        LoadedIsKnown(rs, b, phys.regions, ram[..], NameOf(text) in files, FileOf(NameOf(text)), AlignmentOf(pageAlign),
                      addr);
        p := GoesOn(rs0, b0, rs, b, phys.regions, ram[..], ms, f0, files, pageAlign, p0, addr);
      } else {
        p := FallsAway(rs0, b0, rs, b, phys.regions, ram[..], ms, f0, files, pageAlign, p0, NameOf(text) in files,
                       FileOf(NameOf(text)));
      }
      ProgressMeans(rs0, b0, phys.regions, ram[..], ms, fates, files, pageAlign, p);
    }

    lemma LoadedIsKnown(rs: seq<Region>, b: seq<byte>, rs': seq<Region>, b': seq<byte>, known: bool, f: seq<byte>,
                        alignment: nat, addr: nat)
      requires Tried(rs, b, rs', b', known, f, alignment, addr) && addr != 0
      ensures known
    {
    }

    /** The module at i stays, with its range and its arguments. */
    method Keep(mods: array<Module>, i: nat, n: nat, m: Module, ghost end: nat, ghost kept: seq<Module>,
                ghost rest: seq<Module>, ghost tail: seq<Module>)
      requires Layout(mods[..], i, n, end, kept, rest, tail) && i < n
      modifies mods
      ensures rest != [] && Layout(mods[..], i + 1, n, end, kept + [m], rest[1..], tail)
    {
      ghost var was := mods[..];
      Kept(was, i, n, end, kept, rest, tail, m);
      mods[i] := m;
      assert mods[..] == was[i := m];
    }

    /** The module at i is removed from the array. */
    method Delete(mods: array<Module>, i: nat, n: nat, ghost end: nat, ghost kept: seq<Module>, ghost rest: seq<Module>,
                  ghost tail: seq<Module>)
      requires Layout(mods[..], i, n, end, kept, rest, tail) && i < n
      modifies mods
      ensures rest != [] && Layout(mods[..], i, n - 1, end, kept, rest[1..], tail)
    {
      ghost var was := mods[..];
      MoveDown(mods, i, n - i - 1);
      assert mods[..][..i] == mods[..i] && mods[..][i..n - 1] == mods[i..n - 1] && mods[..][n..] == mods[n..];
      Deleted(was, mods[..], i, n, end, kept, rest, tail);
    }

    lemma LayoutBegins(a: seq<Module>, n: nat)
      requires n <= |a|
      ensures Layout(a, 0, n, n, [], a[..n], a[n..])
    {
    }

    lemma LayoutEnds(a: seq<Module>, i: nat, end: nat, kept: seq<Module>, rest: seq<Module>, tail: seq<Module>)
      requires Layout(a, i, i, end, kept, rest, tail)
      ensures a[..i] == kept && a[end..] == tail && rest == []
    {
    }

    lemma NoSurvivors(ms: seq<Module>, files: map<string, seq<byte>>)
      ensures Sensible(ms, [], files) && Survivors(ms, [], files) == []
    {
    }

    lemma NoMoreFates(rs: seq<Region>, pageAlign: bool)
      requires Sound()
      ensures Fates(rs, [], Contents(), Whole(), pageAlign) == []
    {
    }
  }
}

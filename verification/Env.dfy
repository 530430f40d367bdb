/**
 The parts of the machine that may fail.  An oracle answers each question (does this BIOS
 call work, is there memory for this buffer) in turn; nothing is assumed of its answers, so
 what is proved holds for every pattern of failures.
 */
module Env {
  import opened Arith

  /**
   How many of the wanted units the allocation loops (src/io.c:423-433, src/raw.c:44-52,
   src/fat.c:656-664) get when memory is plentiful: the request is halved while it is above
   65520 bytes, but 1 is tried only when 1 is what was wanted.
   */
  function Obtained(wanted: nat, unit: nat): (count: nat)
    ensures count <= wanted && count * unit <= 65520
  {
    if wanted * unit <= 65520 then wanted else if wanted / 2 > 1 then Obtained(wanted / 2, unit) else 0
  }

  /** Wanted, halved k times, rounding down. */
  function Halved(wanted: nat, k: nat): nat {
    if k == 0 then wanted else Halved(wanted, k - 1) / 2
  }

  /** It is the first of wanted, a half, a quarter and so on that fits, down to two; or wanted, or nothing. */
  lemma {:induction false} ObtainedIsFirstThatFits(wanted: nat, unit: nat) returns (k: nat)
    ensures forall i {:trigger Halved(wanted, i)} :: 0 <= i < k ==> Halved(wanted, i) * unit > 65520
    ensures if Obtained(wanted, unit) != 0 then
              && Obtained(wanted, unit) == Halved(wanted, k) && Halved(wanted, k) * unit <= 65520
              && (k == 0 || 2 <= Halved(wanted, k))
            else wanted == 0 || (0 < k && Halved(wanted, k) <= 1)
  {
    if wanted * unit <= 65520 {
      k := 0;
    } else if wanted / 2 > 1 {
      var m := ObtainedIsFirstThatFits(wanted / 2, unit);
      k := m + 1;
      forall i: nat ensures Halved(wanted, i + 1) == Halved(wanted / 2, i) {
        HalvedLater(wanted, i);
      }
      forall i {:trigger Halved(wanted, i)} | 0 <= i < k ensures Halved(wanted, i) * unit > 65520 {
        if i > 0 {
          HalvedLater(wanted, i - 1);
        }
      }
    } else {
      k := 1;
      assert Halved(wanted, 1) == wanted / 2 by {
        HalvedLater(wanted, 0);
      }
    }
  }

  lemma {:induction false} HalvedLater(wanted: nat, k: nat)
    ensures Halved(wanted, k + 1) == Halved(wanted / 2, k)
  {
    if k > 0 {
      HalvedLater(wanted, k - 1);
    }
  }

  /** Units of which three fit are always had. */
  lemma {:induction false} SmallUnitsAreObtained(wanted: nat, unit: nat)
    requires 1 <= wanted && unit <= 21840
    ensures 1 <= Obtained(wanted, unit)
  {
    if wanted <= 3 {
      MulOrder(if unit == 0 then 1 else unit, wanted, 3);
    } else {
      SmallUnitsAreObtained(wanted / 2, unit);
    }
  }

  /** Units of which no two fit are had only when a single one is wanted. */
  lemma {:induction false} LargeUnitsAreNot(wanted: nat, unit: nat)
    requires 1 <= wanted && 32760 < unit <= 65520
    ensures Obtained(wanted, unit) == if wanted == 1 then 1 else 0
  {
    if wanted >= 2 {
      MulOrder(unit, 2, wanted);
      if wanted / 2 > 1 {
        LargeUnitsAreNot(wanted / 2, unit);
      }
    }
  }

  /** A transfer asked of a drive. */
  datatype Transfer = Transfer(sector: nat, count: nat)

  /** What was asked of the drive between two points in time lies in this range. */
  ghost predicate Sought(before: seq<Transfer>, after: seq<Transfer>, from: nat, to: nat) {
    before <= after && forall k :: |before| <= k < |after| ==>
          from <= after[k].sector && after[k].sector + after[k].count <= to
  }

  lemma NothingSought(s: seq<Transfer>, from: nat, to: nat)
    ensures Sought(s, s, from, to)
  {
  }

  lemma SoughtOn(a: seq<Transfer>, b: seq<Transfer>, c: seq<Transfer>, from: nat, to: nat, f: nat, t: nat)
    requires Sought(a, b, from, to) && Sought(b, c, f, t) && from <= f && t <= to
    ensures Sought(a, c, from, to)
  {
    assert forall k :: 0 <= k < |b| ==> c[k] == b[k];
  }

  class Oracle {
    const answer: nat -> bool
    var asked: nat
    /** The transfers that have been asked of the drive. */
    ghost var sought: seq<Transfer>

    constructor (answer: nat -> bool)
      ensures this.answer == answer && asked == 0 && sought == []
    {
      this.answer := answer;
      asked := 0;
      sought := [];
    }

    ghost method Note(sector: nat, count: nat)
      modifies this`sought
      ensures sought == old(sought) + [Transfer(sector, count)]
    {
      sought := sought + [Transfer(sector, count)];
    }

    method Ask() returns (ok: bool)
      modifies this
      ensures ok == answer(old(asked)) && asked == old(asked) + 1 && sought == old(sought)
    {
      ok := answer(asked);
      asked := asked + 1;
    }

    /**
     malloc as the callers of the heap see it: it may fail at any time, and always does for
     more than 65520 bytes (HeapModel.LargeRequestsAreRefused).
     */
    method Malloc(bytes: nat) returns (ok: bool)
      modifies this
      ensures ok == (bytes <= 65520 && answer(old(asked))) && asked == old(asked) + 1 && sought == old(sought)
    {
      ok := Ask();
      ok := ok && bytes <= 65520;
    }

    /** The allocation loop: as many units as possible, halving after each failure. */
    method GetBuffer(wanted: nat, unit: nat) returns (ok: bool, count: nat)
      requires 0 < wanted
      modifies this
      ensures old(asked) < asked && sought == old(sought)
      ensures ok ==> 1 <= count <= wanted && count * unit <= 65520
      ensures Smooth(old(asked), asked) ==> count == Obtained(wanted, unit) && ok == (count != 0)
    {
      count := wanted;
      ok := Malloc(count * unit);
      if !ok {
        count := count / 2;
        while count > 1
          invariant count <= wanted && old(asked) < asked && sought == old(sought)
          invariant Smooth(old(asked), asked) ==>
                    (if count > 1 then Obtained(count, unit) else 0) == Obtained(wanted, unit)
          decreases count
        {
          ok := Malloc(count * unit);
          if ok {
            return;
          }
          assert Smooth(old(asked), asked) ==> answer(asked - 1);
          count := count / 2;
        }
        count := 0;
      }
    }

    lemma FailureShows(from: nat, at: nat, to: nat)
      requires from <= at < to && !answer(at)
      ensures !Smooth(from, to)
    {
    }

    lemma SmoothNow(t: nat)
      ensures Smooth(t, t)
    {
    }

    lemma SmoothOn(from: nat, t: nat)
      requires from <= t
      ensures Smooth(from, t + 1) <==> Smooth(from, t) && answer(t)
    {
    }

    lemma SmoothParts(from: nat, mid: nat, to: nat)
      requires from <= mid <= to && Smooth(from, to)
      ensures Smooth(from, mid) && Smooth(mid, to)
    {
    }

    /** Nothing works any more. */
    ghost predicate Dead(from: nat) {
      forall t :: from <= t ==> !answer(t)
    }

    lemma StillDead(from: nat, later: nat)
      requires from <= later && Dead(from)
      ensures Dead(later) && !answer(later)
    {
    }

    /** Nothing failed between two points in time. */
    ghost predicate Smooth(from: nat, to: nat) {
      forall t :: from <= t < to ==> answer(t)
    }
  }
}

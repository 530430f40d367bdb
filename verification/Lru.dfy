/** Least-recently-used order as a value: what the 32-entry cache of src/io.c is meant to hold. */
module Lru {

  function Minus(s: seq<nat>, t: nat): (r: seq<nat>)
    ensures t !in r
    ensures forall x :: x in r <==> x in s && x != t
  {
    if s == [] then [] else if s[0] == t then Minus(s[1..], t) else [s[0]] + Minus(s[1..], t)
  }

  function Newest(s: seq<nat>): seq<nat> {
    if |s| <= 32 then s else s[..32]
  }

  predicate Distinct(s: seq<nat>) {
    forall i, j :: 0 <= i < j < |s| ==> s[i] != s[j]
  }

  /** The distinct elements of a history of touches, the latest first. */
  function Recency(history: seq<nat>): (r: seq<nat>)
    ensures forall x :: x in r <==> x in history
  {
    if history == [] then [] else
    var n := |history| - 1;
    assert history == history[..n] + [history[n]];
    [history[n]] + Minus(Recency(history[..n]), history[n])
  }

  /** The last (at most) 32 distinct elements touched. */
  function Recent(history: seq<nat>): seq<nat> {
    Newest(Recency(history))
  }

  /** One touch of a bounded list: t moves to the front, what no longer fits falls off the end. */
  function Touch(order: seq<nat>, t: nat): seq<nat> {
    Newest([t] + Minus(order, t))
  }

  lemma {:induction false} MinusAt(s: seq<nat>, i: nat)
    requires Distinct(s) && i < |s|
    ensures Minus(s, s[i]) == s[..i] + s[i + 1..]
  {
    if i == 0 {
      assert forall k :: 0 <= k < |s[1..]| ==> s[1..][k] == s[k + 1];
      MinusAbsent(s[1..], s[0]);
    } else {
      MinusAt(s[1..], i - 1);
      assert s[1..][i - 1] == s[i] && s[0] != s[i];
      assert s[1..][..i - 1] == s[1..i] && s[1..][i..] == s[i + 1..];
      assert s[..i] == [s[0]] + s[1..i];
    }
  }

  lemma {:induction false} MinusAbsent(s: seq<nat>, t: nat)
    requires t !in s
    ensures Minus(s, t) == s
  {
    if s != [] {
      MinusAbsent(s[1..], t);
    }
  }

  lemma PushKeepsDistinct(x: nat, s: seq<nat>)
    requires Distinct(s) && x !in s
    ensures Distinct([x] + s)
  {
    assert forall j :: 0 <= j < |s| ==> s[j] in s;
  }

  lemma {:induction false} MinusKeepsDistinct(s: seq<nat>, t: nat)
    requires Distinct(s)
    ensures Distinct(Minus(s, t))
  {
    if s != [] {
      MinusKeepsDistinct(s[1..], t);
      assert forall k :: 0 <= k < |s[1..]| ==> s[1..][k] == s[k + 1];
      PushKeepsDistinct(s[0], Minus(s[1..], t));
    }
  }

  lemma {:induction false} RecencyIsDistinct(history: seq<nat>)
    ensures Distinct(Recency(history))
  {
    if history != [] {
      var n := |history| - 1;
      RecencyIsDistinct(history[..n]);
      MinusKeepsDistinct(Recency(history[..n]), history[n]);
      PushKeepsDistinct(history[n], Minus(Recency(history[..n]), history[n]));
    }
  }

  /** Touching the bounded list gives what the whole history calls for: nothing forgotten matters. */
  lemma TouchIsRecent(history: seq<nat>, t: nat)
    ensures Touch(Recent(history), t) == Recent(history + [t])
    ensures Distinct(Recent(history))
  {
    var r := Recency(history);
    RecencyIsDistinct(history);
    assert (history + [t])[..|history|] == history;
    assert Recency(history + [t]) == [t] + Minus(r, t);
    TouchNewest(r, t);
  }

  lemma TouchNewest(r: seq<nat>, t: nat)
    requires Distinct(r)
    ensures Touch(Newest(r), t) == Newest([t] + Minus(r, t))
    ensures Distinct(Newest(r))
  {
    hide Minus;
    if t in r {
      var i :| 0 <= i < |r| && r[i] == t;
      MinusAt(r, i);
      if i < |Newest(r)| {
        MinusAt(Newest(r), i);
        CutThenDrop(r, i, t);
      } else {
        MinusAbsent(Newest(r), t);
        BeyondTheCut(r, i, t);
      }
    } else {
      MinusAbsent(r, t);
      MinusAbsent(Newest(r), t);
    }
  }

  lemma BeyondTheCut(r: seq<nat>, i: nat, t: nat)
    requires 32 <= i < |r|
    ensures Newest([t] + r[..32]) == Newest([t] + (r[..i] + r[i + 1..]))
  {
    var x, y := ([t] + r[..32])[..32], ([t] + (r[..i] + r[i + 1..]))[..32];
    forall k | 0 <= k < 32 ensures x[k] == y[k] {}
    assert x == y;
  }

  lemma CutThenDrop(r: seq<nat>, i: nat, t: nat)
    requires i < |Newest(r)|
    ensures Newest([t] + (Newest(r)[..i] + Newest(r)[i + 1..])) == Newest([t] + (r[..i] + r[i + 1..]))
  {
    if |r| > 32 {
      var x, y := [t] + (r[..32][..i] + r[..32][i + 1..]), ([t] + (r[..i] + r[i + 1..]))[..32];
      assert |x| == |y| == 32;
      forall k | 0 <= k < 32 ensures x[k] == y[k] {}
      assert x == y;
    }
  }

  /** A touch of an absent element drops the last one exactly when the list is full. */
  lemma TouchAbsent(order: seq<nat>, t: nat)
    requires t !in order && |order| <= 32
    ensures Touch(order, t) == if |order| == 32 then [t] + order[..31] else [t] + order
  {
    MinusAbsent(order, t);
  }

  lemma TouchPresent(order: seq<nat>, k: nat)
    requires Distinct(order) && k < |order| <= 32
    ensures Touch(order, order[k]) == [order[k]] + (order[..k] + order[k + 1..])
  {
    MinusAt(order, k);
  }
}

/** Byte sequences cut into sectors (or clusters) of a fixed size, and buffers being filled. */
module Bytes {
  import opened Common

  /** n units of `size` bytes each, from unit s on. */
  function Units(data: seq<byte>, size: nat, s: nat, n: nat): (r: seq<byte>)
    requires (s + n) * size <= |data|
    ensures |r| == n * size
  {
    UnitsFit(size, s, n);
    data[s * size..(s + n) * size]
  }

  lemma UnitsFit(size: nat, s: nat, n: nat)
    ensures 0 <= s * size <= (s + n) * size && (s + n) * size == s * size + n * size
  {
  }

  lemma FewerUnitsFit(size: nat, s: nat, n: nat, m: nat, limit: nat)
    requires n <= m && (s + m) * size <= limit
    ensures (s + n) * size <= limit
  {
    UnitsFit(size, s + n, m - n);
  }

  /** Reading a units and then b more is reading a + b. */
  lemma UnitsJoin(data: seq<byte>, size: nat, s: nat, a: nat, b: nat)
    requires (s + a + b) * size <= |data|
    ensures (s + a) * size <= |data|
    ensures Units(data, size, s, a) + Units(data, size, s + a, b) == Units(data, size, s, a + b)
  {
    UnitsFit(size, s, a);
    UnitsFit(size, s + a, b);
    UnitsFit(size, s, a + b);
  }

  /** m units from unit i on of a run of units. */
  lemma UnitsOfRun(data: seq<byte>, size: nat, s: nat, n: nat, i: nat, m: nat)
    requires (s + n) * size <= |data| && i + m <= n
    ensures (s + i + m) * size <= |data| && (i + m) * size <= n * size
    ensures Units(Units(data, size, s, n), size, i, m) == Units(data, size, s + i, m)
  {
    UnitsFit(size, s, n);
    UnitsFit(size, s, i);
    UnitsFit(size, s, i + m);
    UnitsFit(size, s + i + m, n - i - m);
    UnitsFit(size, i + m, n - i - m);
    UnitsFit(size, i, m);
    UnitsFit(size, s + i, m);
    SliceOfSlice(data, s * size, (s + n) * size, i * size, (i + m) * size);
  }

  lemma SliceOfSlice<T>(d: seq<T>, a: nat, b: nat, i: nat, j: nat)
    requires a <= b <= |d| && i <= j <= b - a
    ensures d[a..b][i..j] == d[a + i..a + j]
  {
    var x, y := d[a..b][i..j], d[a + i..a + j];
    assert |x| == |y| && forall k :: 0 <= k < j - i ==> x[k] == d[a..b][i + k] && y[k] == d[a + i + k];
  }

  /** A unit made of k smaller ones. */
  lemma Rescaled(n: nat, size: nat, k: nat, large: nat)
    requires large == size * k
    ensures n * k * size == n * large
  {
  }

  /** The same bytes in units of another size. */
  lemma UnitsRescaled(data: seq<byte>, size: nat, k: nat, large: nat, s: nat, n: nat)
    requires large == size * k && (s + n) * large <= |data|
    ensures (s * k + n * k) * size <= |data|
    ensures Units(data, size, s * k, n * k) == Units(data, large, s, n)
  {
    UnitsFit(k, s, n);
    Rescaled(s, size, k, large);
    Rescaled(s + n, size, k, large);
  }

  /** Bytes cut out of a run of units. */
  lemma SliceOfUnits(data: seq<byte>, size: nat, s: nat, n: nat, o: nat, len: nat)
    requires (s + n) * size <= |data| && o + len <= n * size
    ensures s * size + o + len <= |data|
    ensures Units(data, size, s, n)[o..o + len] == data[s * size + o..s * size + o + len]
  {
    UnitsFit(size, s, n);
    SliceOfSlice(data, s * size, (s + n) * size, o, o + len);
  }

  /** s with `data` written over it from position at on. */
  function Spliced(s: seq<byte>, at: nat, data: seq<byte>): seq<byte>
    requires at + |data| <= |s|
  {
    s[..at] + data + s[at + |data|..]
  }

  lemma NothingCopied(s: seq<byte>, data: seq<byte>, at: nat, from: nat)
    requires at <= |s| && from <= |data|
    ensures Spliced(s, at, data[from..from]) == s
  {
  }

  lemma SlicesJoin(data: seq<byte>, from: nat, a: nat, b: nat)
    requires from + a + b <= |data|
    ensures data[from..from + a] + data[from + a..from + a + b] == data[from..from + a + b]
  {
  }

  lemma SplicedFront(s: seq<byte>, data: seq<byte>)
    requires |data| <= |s|
    ensures Spliced(s, 0, data)[..|data|] == data
  {
  }

  lemma SplicedTwice(s: seq<byte>, at: nat, a: seq<byte>, b: seq<byte>)
    requires at + |a| + |b| <= |s|
    ensures Spliced(Spliced(s, at, a), at + |a|, b) == Spliced(s, at, a + b)
  {
  }

  /** A buffer overwritten from its start to its end. */
  lemma WholeBuffer(tmp: seq<byte>, data: seq<byte>)
    requires |tmp| == |data|
    ensures Spliced(tmp, 0, data) == data
  {
  }

  /** Two states of a buffer that differ in [at, at + n) only. */
  ghost predicate SameOutside(a: seq<byte>, b: seq<byte>, at: nat, n: nat) {
    |a| == |b| && forall i {:trigger b[i]} :: 0 <= i < |a| && !(at <= i < at + n) ==> b[i] == a[i]
  }

  lemma SplicedOutside(a: seq<byte>, at: nat, data: seq<byte>, n: nat)
    requires at + |data| <= |a| && |data| <= n
    ensures SameOutside(a, Spliced(a, at, data), at, n)
  {
  }

  lemma Untouched(a: seq<byte>, at: nat, n: nat)
    ensures SameOutside(a, a, at, n)
  {
  }

  lemma OutsideWider(a: seq<byte>, b: seq<byte>, at: nat, m: nat, n: nat)
    requires SameOutside(a, b, at, m) && m <= n
    ensures SameOutside(a, b, at, n)
  {
  }

  /** A change after another one, within the same range. */
  lemma OutsideJoins(a: seq<byte>, b: seq<byte>, c: seq<byte>, at: nat, n: nat, from: nat, m: nat)
    requires SameOutside(a, b, at, n) && SameOutside(b, c, from, m) && at <= from && from + m <= at + n
    ensures SameOutside(a, c, at, n)
  {
  }

  /** memcpy into a caller's buffer. */
  method Memcpy(dst: array<byte>, at: nat, src: seq<byte>)
    requires at + |src| <= dst.Length
    modifies dst
    ensures dst[..] == Spliced(old(dst[..]), at, src)
  {
    for k := 0 to |src|
      invariant forall i :: 0 <= i < dst.Length ==> dst[i] == if at <= i < at + k then src[i - at] else old(dst[i])
    {
      dst[at + k] := src[k];
    }
  }
}

/** Printing and reading numbers: ulltoa (src/stdio.c) and strtoul (src/stdlib.c). */
module Numbers {
  import opened Arith

  // ---------------------------------------------------------------- digits

  function Digit(d: nat): char
    requires d < 36
  {
    if d < 10 then '0' + d as char else 'a' + (d - 10) as char
  }

  predicate IsDigit(c: char) { '0' <= c <= '9' }

  predicate IsUpper(c: char) { 'A' <= c <= 'Z' }

  predicate IsAlnum(c: char) { IsDigit(c) || IsUpper(c) || 'a' <= c <= 'z' }

  predicate IsSpace(c: char) { c == ' ' || '\t' <= c <= '\r' }

  function ToLower(c: char): char {
    if IsUpper(c) then c + ('a' - 'A') else c
  }

  /** What a letter or digit stands for. */
  function DigitValue(c: char): (d: nat)
    requires IsAlnum(c)
    ensures d < 36
  {
    if IsDigit(c) then (c - '0') as nat else 10 + (ToLower(c) - 'a') as nat
  }

  /** The digits of v but the last, as a number; and the last. */
  function High(v: nat, base: nat): (r: nat)
    requires 2 <= base
    ensures v < base ==> r == 0
    ensures base <= v ==> 1 <= r < v
  {
    Division(v, base);
    MulAtLeast(v / base, base - 1);
    assert v / base * base == v / base * (base - 1) + v / base;
    v / base
  }

  function Low(v: nat, base: nat): (r: nat)
    requires 2 <= base
    ensures r < base && v == High(v, base) * base + r
  {
    Division(v, base);
    v % base
  }

  /** The text of a number, without leading zeros. */
  function Text(v: nat, base: nat): (r: string)
    requires 2 <= base <= 36
    ensures |r| >= 1
  {
    (if v < base then "" else Text(High(v, base), base)) + [Digit(Low(v, base))]
  }

  /** The number a text of digits stands for. */
  function Value(digits: string, base: nat): nat
    requires forall i :: 0 <= i < |digits| ==> IsAlnum(digits[i])
  {
    if digits == "" then 0 else
    Value(digits[..|digits| - 1], base) * base + DigitValue(digits[|digits| - 1])
  }

  predicate IsNumeral(digits: string, base: nat) {
    forall i :: 0 <= i < |digits| ==> IsAlnum(digits[i]) && DigitValue(digits[i]) < base
  }

  lemma {:induction false} TextHasItsValue(v: nat, base: nat)
    requires 2 <= base <= 36
    ensures IsNumeral(Text(v, base), base) && Value(Text(v, base), base) == v
    ensures Text(v, base)[0] == '0' ==> v == 0
  {
    hide Digit, DigitValue, IsAlnum, High, Low, Value;
    DigitStandsFor(Low(v, base));
    var head := "";
    if v < base {
      ValueOfNothing(base);
    } else {
      TextHasItsValue(High(v, base), base);
      head := Text(High(v, base), base);
    }
    ValuePush(head, Digit(Low(v, base)), base);
  }

  lemma ValueOfNothing(base: nat)
    ensures Value("", base) == 0
  {
  }

  lemma DigitStandsFor(d: nat)
    requires d < 36
    ensures IsAlnum(Digit(d)) && DigitValue(Digit(d)) == d && (Digit(d) == '0' ==> d == 0)
  {
  }

  lemma ValuePush(digits: string, c: char, base: nat)
    requires IsNumeral(digits, base) && IsAlnum(c) && DigitValue(c) < base
    ensures IsNumeral(digits + [c], base) && Value(digits + [c], base) == Value(digits, base) * base + DigitValue(c)
  {
    assert (digits + [c])[..|digits|] == digits;
  }

  // ---------------------------------------------------------------- ulltoa

  function Reversed(s: string): (r: string)
    ensures |r| == |s|
  {
    if s == "" then "" else Reversed(s[1..]) + [s[0]]
  }

  lemma {:induction false} ReversedAt(s: string, k: nat)
    requires k < |s|
    ensures Reversed(s)[k] == s[|s| - 1 - k]
  {
    if k < |s| - 1 {
      ReversedAt(s[1..], k);
    }
  }

  lemma NothingReversed()
    ensures Reversed("") == ""
  {
  }

  lemma ReversedPush(s: string, c: char)
    ensures Reversed(s + [c]) == [c] + Reversed(s)
  {
    var x, y := Reversed(s + [c]), [c] + Reversed(s);
    forall k | 0 <= k < |x| ensures x[k] == y[k] {
      ReversedAt(s + [c], k);
      if k > 0 {
        ReversedAt(s, k - 1);
      }
    }
  }

  /** ulltoa: the digits are generated last first, and then reversed in place. */
  method Ulltoa(value: nat, s: array<char>, base: nat)
    requires value < 0x1_0000_0000_0000_0000 && 2 <= base <= 36 && |Text(value, base)| < s.Length
    modifies s
    ensures s[..|Text(value, base)| + 1] == Text(value, base) + ['\0']
    ensures s[|Text(value, base)| + 1..] == old(s[|Text(value, base)| + 1..])
  {
    hide *;
    ghost var text, s0 := Text(value, base), s[..];
    var end := Generate(value, s, base);
    assert s[end + 1..] == s[end..][1..] == s0[end..][1..] == s0[end + 1..];
    ghost var done := s[..end];
    s[end] := '\0';
    assert s[..end] == done && s[end..][0] == '\0' && s[end..][1..] == s[end + 1..] == s0[end + 1..];
    ghost var tail := s[end..];
    ReverseInPlace(s, end);
    assert s[end + 1..] == s[end..][1..] == tail[1..];
    assert s[end] == s[end..][0] == tail[0];
    assert s[..end + 1] == s[..end] + [s[end]];
    ReversedTwice(text);
  }

  /** The last digit, and the text of what is left without it. */
  lemma TextStep(v: nat, base: nat)
    requires 2 <= base <= 36
    ensures Text(v, base) == (if High(v, base) == 0 then "" else Text(High(v, base), base)) + [Digit(Low(v, base))]
    ensures 0 < v ==> High(v, base) < v
  {
  }

  method Generate(value: nat, s: array<char>, base: nat) returns (end: nat)
    requires 2 <= base <= 36 && |Text(value, base)| < s.Length
    modifies s
    ensures end == |Text(value, base)| && s[..end] == Reversed(Text(value, base))
    ensures s[end..] == old(s[end..])
  {
    hide *;
    NothingReversed();
    TextStep(value, base);
    var v: nat := value;
    end := 0;
    ghost var text := Text(value, base);
    ghost var rest := text;
    while true
      invariant end + |rest| == |text| < s.Length && s[end..] == old(s[end..])
      invariant rest == Text(v, base) != "" && text == rest + Reversed(s[..end])
      decreases v
    {
      var c := Character(v, base);
      ghost var done, tail := s[..end], s[end..];
      ReversedPush(done, c);
      TextStep(v, base);
      s[end] := c;
      assert s[..end + 1] == done + [c] && s[end + 1..] == tail[1..];
      assert old(s[end..])[1..] == old(s[end + 1..]);
      v := High(v, base);
      end := end + 1;
      if v == 0 {
        assert rest == [c] && text == Reversed(s[..end]);
        break;
      }
      rest := Text(v, base);
      TextStep(v, base);
      assert rest + [c] + Reversed(done) == rest + ([c] + Reversed(done));
    }
    ReversedTwice(s[..end]);
  }

  method Character(v: nat, base: nat) returns (c: char)
    requires 2 <= base <= 36
    ensures c == Digit(Low(v, base))
  {
    c := (v % base) as char + '0';
    if c > '9' {
      c := c + ('a' - '9' - 1 as char);
    }
  }

  lemma ReversedTwice(s: string)
    ensures Reversed(Reversed(s)) == s
  {
    var x := Reversed(Reversed(s));
    forall k | 0 <= k < |s| ensures x[k] == s[k] {
      ReversedAt(Reversed(s), k);
      ReversedAt(s, |s| - 1 - k);
    }
  }

  method ReverseInPlace(s: array<char>, n: nat)
    requires n <= s.Length
    modifies s
    ensures s[..n] == Reversed(old(s[..n])) && s[n..] == old(s[n..])
  {
    var lo, hi := 0, n - 1;
    while lo < hi
      invariant 0 <= lo && lo + hi == n - 1 && lo <= hi + 2
      invariant forall k :: 0 <= k < lo || hi < k < n ==> s[k] == old(s[n - 1 - k])
      invariant forall k :: lo <= k <= hi || n <= k < s.Length ==> s[k] == old(s[k])
      decreases hi - lo
    {
      s[lo], s[hi] := s[hi], s[lo];
      lo, hi := lo + 1, hi - 1;
    }
    ghost var was := old(s[..n]);
    forall k | 0 <= k < n ensures s[..n][k] == Reversed(was)[k] {
      ReversedAt(was, k);
    }
  }

  // ---------------------------------------------------------------- strtoul

  const ULONG_MAX: nat := 0xFFFF_FFFF

  /** A character of a C string; the end reads as NUL. */
  function At(s: string, i: nat): char {
    if i < |s| then s[i] else '\0'
  }

  function SkipSpaces(s: string, i: nat): (j: nat)
    requires i <= |s|
    ensures i <= j <= |s|
    decreases |s| - i
  {
    if i < |s| && IsSpace(s[i]) then SkipSpaces(s, i + 1) else i
  }

  /** Behind white space and a plus sign. */
  function Body(s: string): (i: nat)
    ensures i <= |s|
  {
    var i := SkipSpaces(s, 0);
    if At(s, i) == '+' then i + 1 else i
  }

  /** The base of the number at i: 0 stands for the one its prefix tells; 0 also means that it tells none. */
  function BaseAt(s: string, i: nat, base: int): int {
    if base != 0 then base
    else if At(s, i) != '0' then 10
    else if '0' <= At(s, i + 1) <= '7' then 8
    else if ToLower(At(s, i + 1)) == 'x' then 16
    else 0
  }

  function SkipPrefix(s: string, i: nat, base: int): (j: nat)
    requires i <= |s|
    ensures i <= j <= |s|
  {
    if base == 16 && At(s, i) == '0' && (At(s, i + 1) == 'x' || At(s, i + 1) == 'X') then i + 2 else i
  }

  /** The end of the digits from i on. */
  function DigitsEnd(s: string, i: nat, base: nat): (j: nat)
    requires i <= |s|
    ensures i <= j <= |s| && IsNumeral(s[i..j], base)
    decreases |s| - i
  {
    if i < |s| && IsAlnum(s[i]) && DigitValue(s[i]) < base then
      var j := DigitsEnd(s, i + 1, base);
      assert s[i..j] == [s[i]] + s[i + 1..j];
      j
    else i
  }

  /** Reading the numeral a digit at a time, some digit makes the number, cut to 32 bits, smaller. */
  predicate Noticed(digits: string, base: nat)
    requires IsNumeral(digits, base)
  {
    digits != "" &&
    var init := digits[..|digits| - 1];
    Noticed(init, base) || Value(digits, base) % 0x1_0000_0000 < Value(init, base) % 0x1_0000_0000
  }

  lemma NoticedPush(digits: string, c: char, base: nat)
    requires IsNumeral(digits, base) && IsAlnum(c) && DigitValue(c) < base
    ensures IsNumeral(digits + [c], base)
    ensures Noticed(digits + [c], base) <==>
              Noticed(digits, base) || Value(digits + [c], base) % 0x1_0000_0000 < Value(digits, base) % 0x1_0000_0000
  {
    assert (digits + [c])[..|digits|] == digits;
  }

  lemma NoticedStays(s: string, i: nat, j: nat, k: nat, base: nat)
    requires i <= j <= k <= |s| && IsNumeral(s[i..k], base) && IsNumeral(s[i..j], base) && Noticed(s[i..j], base)
    ensures Noticed(s[i..k], base)
    decreases k - j
  {
    hide Value, IsAlnum, DigitValue;
    if j < k {
      assert s[i..j + 1] == s[i..j] + [s[j]] && s[j] == s[i..k][j - i];
      NoticedPush(s[i..j], s[j], base);
      NoticedStays(s, i, j + 1, k, base);
    }
  }

  /** Nothing is noticed while the value fits. */
  lemma {:induction false} NoticedIsOverflow(digits: string, base: nat)
    requires IsNumeral(digits, base) && 1 <= base && Noticed(digits, base)
    ensures Value(digits, base) > ULONG_MAX
  {
    var init := digits[..|digits| - 1];
    MulAtLeast(Value(init, base), base);
    if Noticed(init, base) {
      NoticedIsOverflow(init, base);
    }
  }

  /** A digit more, on 32 bits. */
  function Advance(result: nat, base: nat, d: nat): nat {
    (result * base + d) % 0x1_0000_0000
  }

  lemma AdvancePush(digits: string, c: char, base: nat)
    requires IsNumeral(digits, base) && IsAlnum(c) && DigitValue(c) < base
    ensures IsNumeral(digits + [c], base)
    ensures Advance(Value(digits, base) % 0x1_0000_0000, base, DigitValue(c))
              == Value(digits + [c], base) % 0x1_0000_0000
  {
    hide Value, IsAlnum, DigitValue;
    ValuePush(digits, c, base);
    SameRemainder(Value(digits, base), base, DigitValue(c));
  }

  lemma SameRemainder(v: nat, base: nat, d: nat)
    ensures (v % 0x1_0000_0000 * base + d) % 0x1_0000_0000 == (v * base + d) % 0x1_0000_0000
  {
    var q := v / 0x1_0000_0000;
    assert v * base == v % 0x1_0000_0000 * base + 0x1_0000_0000 * (q * base);
  }

  /**
   strtoul.  The longest numeral behind white space, sign and prefix is read.  The result is its
   value cut to 32 bits, unless that is noticed: then it is ULONG_MAX, and the end is left unset.
   */
  method Strtoul(s: string, base: int) returns (result: nat, end: nat, overflow: bool)
    ensures var i := Body(s); var b := BaseAt(s, i, base);
      if b < 2 || b > 36 then result == 0 && end == 0 && !overflow
      else
        var from := SkipPrefix(s, i, b);
        var to := DigitsEnd(s, from, b);
        overflow == Noticed(s[from..to], b)
        && (if overflow then result == ULONG_MAX else result == Value(s[from..to], b) % 0x1_0000_0000 && end == to)
  {
    hide IsAlnum, DigitValue, Value, DigitsEnd, Noticed;
    overflow := false;
    var i := 0;
    while i < |s| && IsSpace(s[i])
      invariant i <= |s| && SkipSpaces(s, i) == SkipSpaces(s, 0)
    {
      i := i + 1;
    }
    if At(s, i) == '+' {
      i := i + 1;
    }
    var b := BaseAt(s, i, base);
    if b < 2 || b > 36 {
      return 0, 0, false;
    }
    i := SkipPrefix(s, i, b);
    result, end, overflow := Digits(s, i, b);
  }

  /** The digit loop; all arithmetic is modulo 2^32. */
  method Digits(s: string, from: nat, base: nat) returns (result: nat, end: nat, overflow: bool)
    requires from <= |s| && 2 <= base <= 36
    ensures var to := DigitsEnd(s, from, base);
      overflow == Noticed(s[from..to], base)
      && (if overflow then result == ULONG_MAX else result == Value(s[from..to], base) % 0x1_0000_0000 && end == to)
  {
    hide IsAlnum, DigitValue, Value, DigitsEnd, Noticed, Advance;
    result, end, overflow := 0, from, false;
    ghost var to := DigitsEnd(s, from, base);
    assert s[from..from] == "";
    NothingNoticed(base);
    DigitsGoOn(s, from, base);
    while end < |s| && IsAlnum(s[end]) && DigitValue(s[end]) < base
      invariant from <= end <= to <= |s| && to == DigitsEnd(s, end, base)
      invariant IsNumeral(s[from..end], base) && result == Value(s[from..end], base) % 0x1_0000_0000
      invariant !Noticed(s[from..end], base)
    {
      DigitsGoOn(s, end, base);
      DigitRead(s, from, end, to, base);
      var next := Advance(result, base, DigitValue(s[end]));
      if next < result {
        return ULONG_MAX, end, true;
      }
      result := next;
      end := end + 1;
    }
    DigitsGoOn(s, end, base);
  }

  /** One digit more: what the number becomes, and whether that is noticed. */
  lemma DigitRead(s: string, from: nat, end: nat, stop: nat, base: nat)
    requires from <= end < stop <= |s| && 2 <= base <= 36 && IsNumeral(s[from..stop], base)
    requires IsNumeral(s[from..end], base)
    requires IsAlnum(s[end]) && DigitValue(s[end]) < base && !Noticed(s[from..end], base)
    ensures IsNumeral(s[from..end + 1], base)
    ensures var was := Value(s[from..end], base) % 0x1_0000_0000; var next := Advance(was, base, DigitValue(s[end]));
      && next == Value(s[from..end + 1], base) % 0x1_0000_0000
      && (if next < was then Noticed(s[from..stop], base) else !Noticed(s[from..end + 1], base))
  {
    hide IsAlnum, DigitValue, Value, Noticed, Advance;
    assert s[from..end + 1] == s[from..end] + [s[end]];
    NoticedPush(s[from..end], s[end], base);
    AdvancePush(s[from..end], s[end], base);
    if Noticed(s[from..end + 1], base) {
      NoticedStays(s, from, end + 1, stop, base);
    }
  }

  lemma DigitsGoOn(s: string, i: nat, base: nat)
    requires i <= |s|
    ensures if i < |s| && IsAlnum(s[i]) && DigitValue(s[i]) < base
            then i < DigitsEnd(s, i, base) == DigitsEnd(s, i + 1, base)
            else DigitsEnd(s, i, base) == i
  {
  }

  /**
   The number, cut to 32 bits, is smaller than what is left of it without its last digit, or
   without its last two, and so on.
   */
  predicate Drops(v: nat, base: nat)
    requires 2 <= base
  {
    v % 0x1_0000_0000 < High(v, base) % 0x1_0000_0000 || (base <= v && Drops(High(v, base), base))
  }

  /** An overflow of any numeral is noticed exactly when its value drops somewhere on the way. */
  lemma {:induction false} OverflowNoticedIff(digits: string, base: nat)
    requires 2 <= base <= 36 && IsNumeral(digits, base)
    ensures Noticed(digits, base) <==> Drops(Value(digits, base), base)
  {
    hide DigitValue, IsAlnum, High, Value, Noticed;
    NothingNoticed(base);
    NothingDrops(base);
    if digits != "" {
      var init, c := digits[..|digits| - 1], digits[|digits| - 1];
      assert digits == init + [c];
      OverflowNoticedIff(init, base);
      NoticedPush(init, c, base);
      ValuePush(init, c, base);
      HighOf(Value(init, base), base, DigitValue(c));
    }
  }

  lemma NothingDrops(base: nat)
    requires 2 <= base
    ensures forall v {:trigger High(v, base)} :: 0 <= v < base ==> High(v, base) == 0
    ensures !Drops(0, base)
  {
    hide High;
  }

  /** What is left of a number when its last digit has been taken off. */
  lemma HighOf(v: nat, base: nat, d: nat)
    requires 2 <= base && d < base
    ensures High(v * base + d, base) == v && (v * base + d < base <==> v == 0)
  {
    QuotientIs(v * base + d, base, v, d);
    MulAtLeast(v, base);
  }

  /**
   An overflow by the last digit alone is noticed exactly when what is left of the number is
   smaller than the number before; so 5000000000 reads as 705032704.
   */
  lemma LastDigitNoticedIff(v: nat, base: nat)
    requires 2 <= base <= 36 && High(v, base) <= ULONG_MAX
    ensures IsNumeral(Text(v, base), base) && Value(Text(v, base), base) == v
    ensures Noticed(Text(v, base), base) <==> v % 0x1_0000_0000 < High(v, base)
  {
    hide High, Low, Value, Noticed, Drops, Text;
    TextHasItsValue(v, base);
    OverflowNoticedIff(Text(v, base), base);
    DropsLast(v, base);
  }

  lemma {:induction false} NumbersThatFitNeverDrop(v: nat, base: nat)
    requires 2 <= base && v <= ULONG_MAX
    ensures !Drops(v, base)
    decreases v
  {
    hide High;
    if base <= v {
      NumbersThatFitNeverDrop(High(v, base), base);
    }
  }

  lemma DropsLast(v: nat, base: nat)
    requires 2 <= base && High(v, base) <= ULONG_MAX
    ensures Drops(v, base) <==> v % 0x1_0000_0000 < High(v, base)
  {
    hide High;
    NumbersThatFitNeverDrop(High(v, base), base);
  }

  lemma NothingNoticed(base: nat)
    ensures !Noticed("", base) && Value("", base) == 0
    ensures IsNumeral("", base)
  {
  }

  lemma OverflowMayGoUnnoticed()
    ensures Value(Text(5000000000, 10), 10) == 5000000000 && IsNumeral(Text(5000000000, 10), 10)
    ensures !Noticed(Text(5000000000, 10), 10) && 5000000000 % 0x1_0000_0000 == 705032704
  {
    hide Text, Value, Noticed;
    LastDigitNoticedIff(5000000000, 10);
  }

  // ---------------------------------------------------------------- round trip

  lemma {:induction false} WholeTextIsDigits(t: string, i: nat, base: nat)
    requires i <= |t| && IsNumeral(t, base)
    ensures DigitsEnd(t, i, base) == |t|
    decreases |t| - i
  {
    if i < |t| {
      WholeTextIsDigits(t, i + 1, base);
    }
  }

  /** What ulltoa prints, strtoul reads back, to the last character. */
  lemma PrintedNumbersReadBack(v: nat, base: nat)
    requires 2 <= base <= 36
    ensures var t := Text(v, base);
      && Body(t) == 0 && BaseAt(t, 0, base) == base && SkipPrefix(t, 0, base) == 0
      && DigitsEnd(t, 0, base) == |t| && Value(t[0..|t|], base) == v
      && (v <= ULONG_MAX ==> !Noticed(t[0..|t|], base))
  {
    hide High, Low, Digit, Value, DigitsEnd, DigitValue;
    var t := Text(v, base);
    TextHasItsValue(v, base);
    WholeTextIsDigits(t, 0, base);
    assert t[0..|t|] == t && IsAlnum(t[0]);
    if Noticed(t, base) {
      NoticedIsOverflow(t, base);
    }
  }

  /** With the base left open, every decimal text is taken as decimal, but "0" is refused. */
  lemma DecimalIsRecognisedIff(v: nat)
    ensures BaseAt(Text(v, 10), 0, 0) == 10 <==> v != 0
    ensures BaseAt(Text(0, 10), 0, 0) == 0
  {
    hide High, Low;
    TextHasItsValue(v, 10);
    assert Text(0, 10) == "0";
  }

  // ---------------------------------------------------------------- numbers as people write them

  /** Digits stand for 0 to 9, and letters for 10 to 35 in upper and in lower case. */
  lemma WhatDigitsStandFor(c: char)
    requires IsAlnum(c)
    ensures '0' <= c <= '9' ==> DigitValue(c) == c as int - 48
    ensures 'A' <= c <= 'Z' ==> DigitValue(c) == c as int - 55
    ensures 'a' <= c <= 'z' ==> DigitValue(c) == c as int - 87
  {
  }

  /** The same letter in upper and lower case, or the same character. */
  predicate SameButCase(c: char, d: char) {
    c == d || ('A' <= c <= 'Z' && d as int == c as int + 32) || ('A' <= d <= 'Z' && c as int == d as int + 32)
  }

  /** Printed numbers have no capitals. */
  lemma {:induction false} TextIsLowerCase(v: nat, base: nat)
    requires 2 <= base <= 36
    ensures forall i :: 0 <= i < |Text(v, base)| ==> var c := Text(v, base)[i]; '0' <= c <= '9' || 'a' <= c <= 'z'
  {
    hide High, Low;
    if base <= v {
      TextIsLowerCase(High(v, base), base);
    }
  }

  /** Capitals do not matter. */
  lemma {:induction false} CapitalsReadAlike(t: string, u: string, base: nat)
    requires IsNumeral(t, base) && |u| == |t| && forall i :: 0 <= i < |t| ==> SameButCase(t[i], u[i])
    ensures IsNumeral(u, base) && Value(u, base) == Value(t, base)
  {
    forall i | 0 <= i < |u| ensures IsAlnum(u[i]) && DigitValue(u[i]) == DigitValue(t[i]) {
      SameDigit(t[i], u[i]);
    }
    hide DigitValue, IsAlnum;
    if t != "" {
      CapitalsReadAlike(t[..|t| - 1], u[..|u| - 1], base);
    }
  }

  lemma SameDigit(c: char, d: char)
    requires IsAlnum(c) && SameButCase(c, d)
    ensures IsAlnum(d) && DigitValue(d) == DigitValue(c)
  {
  }

  /** A zero in front does not matter. */
  lemma {:induction false} ZeroInFront(t: string, base: nat)
    requires IsNumeral(t, base) && 0 < base
    ensures IsNumeral("0" + t, base) && Value("0" + t, base) == Value(t, base)
  {
    assert DigitValue('0') == 0;
    hide DigitValue, IsAlnum;
    if t == "" {
      assert "0" + t == "0" && "0"[..0] == "";
    } else {
      ZeroInFront(t[..|t| - 1], base);
      assert ("0" + t)[..|t|] == "0" + t[..|t| - 1];
    }
  }

  /** Space, and tab to carriage return. */
  predicate AllBlank(s: string) {
    forall i :: 0 <= i < |s| ==> s[i] as int in {9, 10, 11, 12, 13, 32}
  }

  /** What does not go on with the numeral. */
  predicate Ends(tail: string, base: nat) {
    tail == "" || !IsAlnum(tail[0]) || DigitValue(tail[0]) >= base
  }

  /** How numbers of a base are written: with 0x or 0X, with a 0, or with nothing in front. */
  predicate Marked(mark: string, digits: string, tail: string, base: int, b: nat) {
    || (mark in {"0x", "0X"} && b == 16 && base in {0, 16})
    || (mark == "0" && b == 8 && base in {0, 8})
    || (mark == "" && b == 10 && base == 0 && digits != "" && digits[0] != '0')
    || (mark == "" && b == base && !(b == 16 && digits == "0" && tail != "" && tail[0] in {'x', 'X'}))
  }

  /**
   strtoul reads a number as it is written: behind white space and a plus sign, with a prefix or
   without, in upper or lower case, and up to what is no digit any more.
   */
  lemma NumberIsRead(lead: string, sign: string, mark: string, digits: string, tail: string, base: int, b: nat)
    requires AllBlank(lead) && sign in {"", "+"} && 2 <= b <= 36 && Marked(mark, digits, tail, base, b)
    requires digits != "" && IsNumeral(digits, b) && Ends(tail, b)
    ensures var t := lead + sign + mark + digits + tail; var i := Body(t);
      && i == |lead| + |sign| && BaseAt(t, i, base) == b
      && var from := SkipPrefix(t, i, b); var to := DigitsEnd(t, from, b);
        to == |t| - |tail| && Value(t[from..to], b) == Value(digits, b)
  {
    hide *;
    var t, i := lead + sign + mark + digits + tail, |lead| + |sign|;
    assert t == lead + sign + (mark + digits + tail);
    BeginsWell(mark, digits, tail, base, b);
    BodyIs(t, lead, sign, mark + digits + tail);
    assert t[i..] == mark + digits + tail;
    PrefixIs(t, i, mark, digits, tail, base, b);
    var numeral := if mark == "0" then "0" + digits else digits;
    var from := SkipPrefix(t, i, b);
    var to := from + |numeral|;
    assert t[from..to] == numeral && t[to..] == tail;
    ZeroInFront(digits, b);
    DigitsEndIs(t, from, to, b);
  }

  lemma BeginsWell(mark: string, digits: string, tail: string, base: int, b: nat)
    requires Marked(mark, digits, tail, base, b) && digits != "" && IsNumeral(digits, b)
    ensures var body := mark + digits + tail; body != "" && IsAlnum(body[0])
    ensures mark == "" || (mark == "0" && b != 16) || (|mark| == 2 && b == 16)
  {
    assert IsAlnum(digits[0]);
  }

  /** Anything else in front is not skipped, and nothing is read. */
  lemma OtherTextIsNotRead(t: string, b: nat)
    requires t == "" || (t[0] as int !in {9, 10, 11, 12, 13, 32} && t[0] != '+' && !IsAlnum(t[0]))
    ensures Body(t) == 0 && SkipPrefix(t, 0, b) == 0 && DigitsEnd(t, 0, b) == 0
  {
  }

  lemma AtBehind(t: string, i: nat, k: nat)
    requires i <= |t|
    ensures At(t, i + k) == At(t[i..], k)
  {
  }

  lemma BodyIs(t: string, lead: string, sign: string, body: string)
    requires AllBlank(lead) && sign in {"", "+"} && t == lead + sign + body && body != "" && IsAlnum(body[0])
    ensures Body(t) == |lead| + |sign|
  {
    SpacesSkipped(t, 0, |lead|);
  }

  lemma {:induction false} SpacesSkipped(t: string, i: nat, n: nat)
    requires i <= n < |t| && AllBlank(t[i..n]) && !IsSpace(t[n])
    ensures SkipSpaces(t, i) == n
    decreases n - i
  {
    if i < n {
      assert t[i..n][0] == t[i] && t[i..n][1..] == t[i + 1..n];
      SpacesSkipped(t, i + 1, n);
    }
  }

  lemma PrefixIs(t: string, i: nat, mark: string, digits: string, tail: string, base: int, b: nat)
    requires i <= |t| && t[i..] == mark + digits + tail && Marked(mark, digits, tail, base, b)
    requires digits != "" && IsNumeral(digits, b) && 2 <= b <= 36
    ensures BaseAt(t, i, base) == b && SkipPrefix(t, i, b) == i + if b == 16 then |mark| else 0
  {
    var body := mark + digits + tail;
    AtBehind(t, i, 0);
    AtBehind(t, i, 1);
    assert mark == "0" ==> body[1] == digits[0];
    assert mark == "" ==> body[0] == digits[0];
    assert mark == "" && 2 <= |digits| ==> body[1] == digits[1];
    assert mark == "" && |digits| == 1 && tail != "" ==> body[1] == tail[0];
  }

  lemma {:induction false} DigitsEndIs(t: string, from: nat, end: nat, base: nat)
    requires from <= end <= |t| && IsNumeral(t[from..end], base) && Ends(t[end..], base)
    ensures DigitsEnd(t, from, base) == end
    decreases end - from
  {
    hide DigitValue, IsAlnum;
    if from < end {
      assert t[from..end][0] == t[from] && t[from..end][1..] == t[from + 1..end];
      DigitsEndIs(t, from + 1, end, base);
    }
  }
}

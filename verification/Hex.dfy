/** Hexadecimal numbers as alloc.cpp reads them: one digit at a time into a 64-bit word. */
module Hex {
  import opened Words

  // The digit value as the C expression computes it; outside 0..15 for a character that is no digit.
  function DigitValue(c: char): int {
    if c <= '9' then c as int - '0' as int else c as int - 'a' as int + 10
  }

  // `(x << 4) | d` on 64-bit words. A digit fills the four bits the shift cleared; any other `d` is
  // sign-extended to a word first.
  function Accumulate(x: nat, c: char): nat {
    var d := DigitValue(c);
    if 0 <= d < 16 then x * 16 % WORD64 + d else OrWord(x * 16 % WORD64, d % WORD64)
  }

  function OrWord(x: nat, y: nat): nat
    requires x < WORD64 && y < WORD64
  {
    ((x as bv64) | (y as bv64)) as nat
  }

  // A word is its high four bits and its low sixty, which are what the shift leaves.
  lemma HighAndLow(x: bv64)
    ensures x as int
         == ((x >> 60) as bv4) as int * 0x1000_0000_0000_0000 + ((x & 0x0FFF_FFFF_FFFF_FFFF) as bv60) as int
  {}

  lemma ShiftOrLow(x: bv64, d: bv4)
    ensures ((x << 4) | (d as bv64)) as int == ((x & 0x0FFF_FFFF_FFFF_FFFF) as bv60) as int * 16 + d as int
  {}

  lemma TimesMod(v: int, high: int, low: int)
    requires 0 <= low < 0x1000_0000_0000_0000 && v == high * 0x1000_0000_0000_0000 + low
    ensures low * 16 == v * 16 % 0x1_0000_0000_0000_0000
  {}

  lemma ShiftOr(x: bv64, d: bv4)
    ensures ((x << 4) | (d as bv64)) as int == x as int * 16 % 0x1_0000_0000_0000_0000 + d as int
  {
    HighAndLow(x);
    ShiftOrLow(x, d);
    TimesMod(x as int, ((x >> 60) as bv4) as int, ((x & 0x0FFF_FFFF_FFFF_FFFF) as bv60) as int);
  }

  // `n` is the value of the word `x`. For a hex digit, `Accumulate` is the shift and the or of the C code.
  lemma AccumulateIsShiftOr(n: nat, x: bv64, c: char, d: bv4)
    requires n == x as int && d as int == DigitValue(c)
    ensures Accumulate(n, c) == ((x << 4) | (d as bv64)) as int
  {
    ShiftOr(x, d);
  }

  function AccumulateAll(x: nat, s: string): nat
    decreases |s|
  {
    if s == [] then x else AccumulateAll(Accumulate(x, s[0]), s[1..])
  }

  function DigitChar(d: nat): (c: char)
    requires d < 16
    ensures DigitValue(c) == d && c != '-' && c != ' '
  {
    if d < 10 then ('0' as int + d) as char else ('a' as int + d - 10) as char
  }

  // The lower-case digits, and what each is worth.
  lemma LowerCaseDigits(d: nat)
    requires d < 16
    ensures DigitChar(d) == "0123456789abcdef"[d] && DigitValue("0123456789abcdef"[d]) == d
  {}

  function Digits(v: nat): (s: string)
    ensures |s| > 0
    ensures forall i :: 0 <= i < |s| ==> s[i] != '-' && s[i] != ' '
  {
    if v < 16 then [DigitChar(v)] else Digits(v / 16) + [DigitChar(v % 16)]
  }

  function Zeros(n: nat): (s: string)
    ensures |s| == n && forall i :: 0 <= i < n ==> s[i] == '0'
  {
    seq(n, i => '0')
  }

  // `v` in lower-case hexadecimal, zero-padded on the left to at least `width` characters.
  function Print(v: nat, width: nat): (s: string)
    ensures |s| >= width
    ensures forall i :: 0 <= i < |s| ==> s[i] != '-' && s[i] != ' '
  {
    var d := Digits(v);
    if |d| < width then Zeros(width - |d|) + d else d
  }

  lemma {:induction false} AccumulateAppend(x: nat, s: string, t: string)
    ensures AccumulateAll(x, s + t) == AccumulateAll(AccumulateAll(x, s), t)
    decreases |s|
  {
    if s == [] {
      assert s + t == t;
    } else {
      assert (s + t)[1..] == s[1..] + t;
      AccumulateAppend(Accumulate(x, s[0]), s[1..], t);
    }
  }

  lemma AccumulateDigit(x: nat, d: nat)
    requires d < 16 && x * 16 + d < WORD64
    ensures AccumulateAll(x, [DigitChar(d)]) == x * 16 + d
  {
    assert [DigitChar(d)][1..] == "";
  }

  lemma {:induction false} AccumulateDigits(v: nat)
    requires v < WORD64
    ensures AccumulateAll(0, Digits(v)) == v
  {
    if v >= 16 {
      AccumulateDigits(v / 16);
      AccumulateAppend(0, Digits(v / 16), [DigitChar(v % 16)]);
      AccumulateDigit(v / 16, v % 16);
    } else {
      AccumulateDigit(0, v);
    }
  }

  lemma {:induction false} AccumulateZeros(n: nat)
    ensures AccumulateAll(0, Zeros(n)) == 0
  {
    if n > 0 {
      assert Zeros(n)[1..] == Zeros(n - 1);
      AccumulateZeros(n - 1);
    }
  }

  // Every 64-bit value survives printing, at any padding, followed by the parser's accumulation.
  lemma PrintRoundTrip(v: nat, width: nat)
    requires v < 0x1_0000_0000_0000_0000
    ensures AccumulateAll(0, Print(v, width)) == v
  {
    var d := Digits(v);
    AccumulateDigits(v);
    if |d| < width {
      AccumulateZeros(width - |d|);
      AccumulateAppend(0, Zeros(width - |d|), d);
    }
  }
}

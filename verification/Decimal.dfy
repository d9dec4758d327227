/** Decimal printing and reading of integers, as Rust's formatter and `str::parse` do it. */
module Decimal {
  import opened Wrappers
  import opened Text

  function Digit(d: int): (c: char)
    requires 0 <= d <= 9
    ensures IsDigit(c)
  {
    ('0' as int + d) as char
  }

  function DigitValue(c: char): (d: int)
    requires IsDigit(c)
    ensures 0 <= d <= 9
  {
    c as int - '0' as int
  }

  function Dec(n: nat): (s: string)
    ensures AllDigits(s) && |s| >= 1
  {
    if n < 10 then [Digit(n)] else Dec(n / 10) + [Digit(n % 10)]
  }

  /** The number a digit string denotes; 0 for the empty one. */
  function Value(s: string): nat
    requires AllDigits(s)
  {
    if s == [] then 0 else Value(s[..|s| - 1]) * 10 + DigitValue(s[|s| - 1])
  }

  function Zeros(k: nat): (s: string)
    ensures |s| == k && forall i :: 0 <= i < k ==> s[i] == '0'
  {
    seq(k, _ => '0')
  }

  /** `{:0width}` for a non-negative number. */
  function Pad(n: nat, width: nat): (s: string)
    ensures AllDigits(s) && |s| >= width && |s| >= 1
  {
    var d := Dec(n);
    if |d| < width then Zeros(width - |d|) + d else d
  }

  /** `{:0width}` for any integer: the sign counts towards the width. */
  function PadSigned(n: int, width: nat): string {
    if n < 0 then "-" + Pad(-n, if width > 0 then width - 1 else 0) else Pad(n, width)
  }

  lemma {:induction false} ValueOfDec(n: nat)
    ensures Value(Dec(n)) == n
  {
    if n >= 10 {
      ValueOfDec(n / 10);
      assert Dec(n)[..|Dec(n)| - 1] == Dec(n / 10);
    }
  }

  lemma {:induction false} LeadingZeros(k: nat, s: string)
    requires AllDigits(s)
    ensures AllDigits(Zeros(k) + s) && Value(Zeros(k) + s) == Value(s)
    decreases k + |s|
  {
    var t := Zeros(k) + s;
    if s != [] {
      assert t[..|t| - 1] == Zeros(k) + s[..|s| - 1];
      LeadingZeros(k, s[..|s| - 1]);
    } else if k > 0 {
      assert t[..|t| - 1] == Zeros(k - 1) + s;
      LeadingZeros(k - 1, s);
    }
  }

  lemma ValueOfPad(n: nat, width: nat)
    ensures Value(Pad(n, width)) == n
  {
    ValueOfDec(n);
    if |Dec(n)| < width {
      LeadingZeros(width - |Dec(n)|, Dec(n));
    }
  }

  /** Fixed-width numerals: exactly the numbers below 10000 fit in four digits. */
  lemma PadFits(n: nat)
    ensures n < 100 ==> |Pad(n, 2)| == 2
    ensures |Pad(n, 4)| == 4 <==> n < 10000
  {
    assert n < 100 ==> |Dec(n)| <= 2;
    if n < 10000 {
      assert n / 10 < 1000 && n / 10 / 10 < 100 && n / 10 / 10 / 10 < 10;
      assert |Dec(n / 10 / 10)| <= 2;
      assert |Dec(n)| <= 4;
    } else {
      assert n / 10 >= 1000 && n / 10 / 10 >= 100 && n / 10 / 10 / 10 >= 10;
      assert |Dec(n / 10 / 10 / 10)| >= 2;
      assert |Dec(n / 10)| >= 4;
      assert |Dec(n)| >= 5;
    }
  }

  lemma {:induction false} NumeralsAreUnique(a: string, b: string)
    requires AllDigits(a) && AllDigits(b) && |a| == |b| && Value(a) == Value(b)
    ensures a == b
  {
    if a != [] {
      var n := |a| - 1;
      assert DigitValue(a[n]) == Value(a) % 10 && DigitValue(b[n]) == Value(b) % 10;
      NumeralsAreUnique(a[..n], b[..n]);
      assert a == a[..n] + [a[n]] && b == b[..n] + [b[n]];
    }
  }

  function Pow10(k: nat): nat {
    if k == 0 then 1 else 10 * Pow10(k - 1)
  }

  lemma {:induction false} ValueBound(s: string)
    requires AllDigits(s)
    ensures Value(s) < Pow10(|s|)
  {
    if s != [] {
      ValueBound(s[..|s| - 1]);
    }
  }

  /** Two- and four-digit fields print back as they were read. */
  lemma PadOfValue(s: string, width: nat)
    requires AllDigits(s) && |s| == width && (width == 2 || width == 4)
    ensures Pad(Value(s), width) == s
  {
    ValueBound(s);
    assert Pow10(2) == 100 && Pow10(4) == 10000;
    PadFits(Value(s));
    ValueOfPad(Value(s), width);
    NumeralsAreUnique(Pad(Value(s), width), s);
  }

  // ---- signed numbers -------------------------------------------------------------------

  function PrintInt(n: int): string {
    if n < 0 then "-" + Dec(-n) else Dec(n)
  }

  /** `parse::<usize>` and `parse::<i32>` up to the range check: an optional plus sign, then digits. */
  function ParseNat(s: string): Option<nat> {
    var digits := if s != [] && s[0] == '+' then s[1..] else s;
    if digits != [] && AllDigits(digits) then Some(Value(digits)) else None
  }

  function ParseSigned(s: string): Option<int> {
    if s != [] && s[0] == '-' then
      if s[1..] != [] && AllDigits(s[1..]) then Some(0 - Value(s[1..]) as int) else None
    else
      ParseNat(s)
  }

  function ParseI32(s: string): Option<int> {
    var r := ParseSigned(s);
    if r.Some? && -0x8000_0000 <= r.value < 0x8000_0000 then r else None
  }

  lemma ParsePrintedNat(n: nat)
    ensures ParseNat(Dec(n)) == Some(n)
  {
    ValueOfDec(n);
    assert IsDigit(Dec(n)[0]);
  }

  lemma ParsePrintedI32(n: int)
    requires -0x8000_0000 <= n < 0x8000_0000
    ensures ParseI32(PrintInt(n)) == Some(n)
  {
    if n < 0 {
      ValueOfDec(-n);
      assert PrintInt(n)[1..] == Dec(-n);
    } else {
      ParsePrintedNat(n);
      assert IsDigit(Dec(n)[0]);
    }
  }
}

/** Decimal text of unsigned integers: Rust's `{}` formatting and `from_str_radix(_, 10)`. */
module Decimal {
  import opened Wrappers

  const U8_LIMIT: nat := 0x100
  const U32_LIMIT: nat := 0x1_0000_0000
  const U64_LIMIT: nat := 0x1_0000_0000_0000_0000

  predicate IsDigit(c: char) { '0' <= c <= '9' }

  predicate AllDigits(s: string) { forall i :: 0 <= i < |s| ==> IsDigit(s[i]) }

  function DigitValue(c: char): nat
    requires IsDigit(c)
  {
    c as nat - '0' as nat
  }

  function DigitChar(d: nat): (c: char)
    requires d < 10
    ensures IsDigit(c) && DigitValue(c) == d
  {
    ('0' as nat + d) as char
  }

  /** The number a string of digits stands for; the empty string stands for 0. */
  function Value(s: string): nat
    requires AllDigits(s)
  {
    if s == "" then 0 else 10 * Value(s[..|s| - 1]) + DigitValue(s[|s| - 1])
  }

  function Print(n: nat): (s: string)
    ensures s != "" && AllDigits(s)
    ensures Value(s) == n
  {
    if n < 10 then
      assert [DigitChar(n)][..0] == "";
      [DigitChar(n)]
    else
      var s := Print(n / 10) + [DigitChar(n % 10)];
      assert s[..|s| - 1] == Print(n / 10);
      s
  }

  /** Parses an unsigned integer below `limit`; a leading '+' is accepted, anything else is not. */
  function Parse(s: string, limit: nat): Option<nat> {
    var digits := if |s| > 1 && s[0] == '+' then s[1..] else s;
    if digits == "" || !AllDigits(digits) then None
    else if Value(digits) < limit then Some(Value(digits))
    else None
  }

  /** What parses: a number below the limit in digits, with or without one plus sign in front. */
  lemma ParseIff(s: string, limit: nat, n: nat)
    ensures Parse(s, limit) == Some(n) <==>
            n < limit && exists digits | digits == s || ['+'] + digits == s ::
                           digits != "" && AllDigits(digits) && Value(digits) == n
  {
    if Parse(s, limit) == Some(n) {
      var digits := if |s| > 1 && s[0] == '+' then s[1..] else s;
      assert digits == s || ['+'] + digits == s;
    }
    forall digits | (digits == s || ['+'] + digits == s) && digits != "" && AllDigits(digits)
      ensures Parse(s, limit) == if Value(digits) < limit then Some(Value(digits)) else None
    {
      if digits == s {
        assert IsDigit(s[0]);
      } else {
        assert s[1..] == digits;
      }
    }
  }

  lemma ParsePrint(n: nat, limit: nat)
    ensures Parse(Print(n), limit) == (if n < limit then Some(n) else None)
  {
    assert IsDigit(Print(n)[0]);
  }

  function Pow10(k: nat): (p: nat)
    ensures p > 0
  {
    if k == 0 then 1 else 10 * Pow10(k - 1)
  }

  lemma {:induction false} ValueBound(s: string)
    requires AllDigits(s)
    ensures Value(s) < Pow10(|s|)
  {
    if s != "" {
      ValueBound(s[..|s| - 1]);
    }
  }

  lemma LastDigit(n: nat, d: nat)
    requires d < 10
    ensures (10 * n + d) / 10 == n && (10 * n + d) % 10 == d
  {
  }

  /** Digit strings of one length denote different numbers. */
  lemma {:induction false} ValueInjective(s: string, t: string)
    requires AllDigits(s) && AllDigits(t) && |s| == |t| && Value(s) == Value(t)
    ensures s == t
  {
    if s != "" {
      var n := |s| - 1;
      LastDigit(Value(s[..n]), DigitValue(s[n]));
      LastDigit(Value(t[..n]), DigitValue(t[n]));
      assert DigitChar(DigitValue(s[n])) == s[n] && DigitChar(DigitValue(t[n])) == t[n];
      ValueInjective(s[..n], t[..n]);
      assert s == s[..n] + [s[n]] && t == t[..n] + [t[n]];
    }
  }

  /** Zero padding to a width changes the length, not the value. */
  function Zeros(k: nat): (s: string)
    ensures |s| == k && AllDigits(s)
    ensures Value(s) == 0
  {
    if k == 0 then "" else
      var s := Zeros(k - 1) + "0";
      assert s[..|s| - 1] == Zeros(k - 1);
      s
  }

  lemma {:induction false} ValuePadded(k: nat, s: string)
    requires AllDigits(s)
    ensures AllDigits(Zeros(k) + s) && Value(Zeros(k) + s) == Value(s)
  {
    if s == "" {
      assert Zeros(k) + s == Zeros(k);
    } else {
      var n := |s| - 1;
      ValuePadded(k, s[..n]);
      assert (Zeros(k) + s)[..k + n] == Zeros(k) + s[..n];
    }
  }

  /** `{:0width$}`: at least `width` characters, zero-filled on the left. */
  function PrintPadded(n: nat, width: nat): string {
    var s := Print(n);
    if |s| < width then Zeros(width - |s|) + s else s
  }

  lemma {:induction false} PrintLength(n: nat, k: nat)
    requires k > 0 && n < Pow10(k)
    ensures |Print(n)| <= k
  {
    if n >= 10 {
      PrintLength(n / 10, k - 1);
    }
  }

  /** A number that fits is padded to exactly `width` digits, and reads back as itself. */
  lemma PrintPaddedExact(n: nat, width: nat)
    requires width > 0 && n < Pow10(width)
    ensures |PrintPadded(n, width)| == width
    ensures AllDigits(PrintPadded(n, width)) && Value(PrintPadded(n, width)) == n
  {
    PrintLength(n, width);
    ValuePadded(width - |Print(n)|, Print(n));
  }
}

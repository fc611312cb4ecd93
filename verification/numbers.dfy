/** Number formatting and parsing: std::to_string, std::from_chars for
    size_t, bmcweb's intToHexString, and the right shift used to turn KiB
    into MiB. */
module Numbers {
  import opened Wrappers

  /** size_t is 64 bits wide on the targets the code runs on. */
  const SIZE_T_LIMIT: nat := 0x1_0000_0000_0000_0000

  predicate IsDigit(c: char) {
    '0' <= c <= '9'
  }

  predicate AllDigits(s: string) {
    forall i :: 0 <= i < |s| ==> IsDigit(s[i])
  }

  function DigitChar(d: nat): (c: char)
    requires d < 10
    ensures IsDigit(c)
  {
    ('0' as int + d) as char
  }

  function DigitValue(c: char): (d: nat)
    requires IsDigit(c)
    ensures d < 10
  {
    c as int - '0' as int
  }

  /** std::to_string for an unsigned value: no sign, no leading zeros. */
  function ToDecimal(n: nat): (r: string)
    ensures |r| > 0 && AllDigits(r)
    ensures |r| > 1 ==> r[0] != '0'
    decreases n
  {
    if n < 10 then [DigitChar(n)] else ToDecimal(n / 10) + [DigitChar(n % 10)]
  }

  /** The value of a string of decimal digits (leading zeros allowed). */
  function DecimalValue(s: string): nat
    requires AllDigits(s)
    decreases |s|
  {
    if |s| == 0 then 0 else DecimalValue(s[..|s| - 1]) * 10 + DigitValue(s[|s| - 1])
  }

  lemma {:induction false} DecimalRoundTrip(n: nat)
    ensures DecimalValue(ToDecimal(n)) == n
    decreases n
  {
    if n >= 10 {
      DecimalRoundTrip(n / 10);
      var s := ToDecimal(n);
      assert s[..|s| - 1] == ToDecimal(n / 10);
    }
  }

  /** A digit string that does not start with '0' has a positive value. */
  lemma {:induction false} LeadingNonZeroIsPositive(s: string)
    requires |s| > 0 && AllDigits(s) && s[0] != '0'
    ensures DecimalValue(s) > 0
    decreases |s|
  {
    if |s| > 1 {
      LeadingNonZeroIsPositive(s[..|s| - 1]);
    }
  }

  /** Without leading zeros, the digits are exactly what std::to_string
      prints for their value. */
  lemma {:induction false} CanonicalDecimal(s: string)
    requires |s| > 0 && AllDigits(s)
    requires |s| > 1 ==> s[0] != '0'
    ensures ToDecimal(DecimalValue(s)) == s
    decreases |s|
  {
    if |s| > 1 {
      var init := s[..|s| - 1];
      LeadingNonZeroIsPositive(init);
      CanonicalDecimal(init);
      assert s == init + [s[|s| - 1]];
    }
  }

  /** std::from_chars into a size_t, accepted only when it consumes the whole
      input: at least one digit, nothing else, and no overflow. */
  function FromChars(s: string): (r: Option<nat>)
    ensures r.Some? <==> |s| > 0 && AllDigits(s) && DecimalValue(s) < SIZE_T_LIMIT
    ensures r.Some? ==> r.value == DecimalValue(s)
  {
    if |s| > 0 && AllDigits(s) && DecimalValue(s) < SIZE_T_LIMIT then Some(DecimalValue(s))
    else None
  }

  /** Powers of 16 and 2. */
  function Pow16(n: nat): (r: nat)
    ensures r > 0
  {
    if n == 0 then 1 else 16 * Pow16(n - 1)
  }

  function Pow2(n: nat): (r: nat)
    ensures r > 0
  {
    if n == 0 then 1 else 2 * Pow2(n - 1)
  }

  predicate IsHexDigit(c: char) {
    '0' <= c <= '9' || 'A' <= c <= 'F'
  }

  function HexDigit(d: nat): (c: char)
    requires d < 16
    ensures IsHexDigit(c)
  {
    if d < 10 then ('0' as int + d) as char else ('A' as int + d - 10) as char
  }

  function HexDigitValue(c: char): (d: nat)
    requires IsHexDigit(c)
    ensures d < 16
  {
    if c <= '9' then c as int - '0' as int else c as int - 'A' as int + 10
  }

  /** intToHexString(value, digits): the low `digits` nibbles of value in
      upper-case hexadecimal, most significant first, zero padded. */
  function IntToHexString(value: nat, digits: nat): (r: string)
    ensures |r| == digits
    ensures forall i :: 0 <= i < |r| ==> IsHexDigit(r[i])
    decreases digits
  {
    if digits == 0 then "" else IntToHexString(value / 16, digits - 1) + [HexDigit(value % 16)]
  }

  function HexValue(s: string): nat
    requires forall i :: 0 <= i < |s| ==> IsHexDigit(s[i])
    decreases |s|
  {
    if |s| == 0 then 0 else HexValue(s[..|s| - 1]) * 16 + HexDigitValue(s[|s| - 1])
  }

  /** A value that fits in `digits` nibbles is written exactly: reading the
      hex string back gives the value. */
  lemma {:induction false} HexRoundTrip(value: nat, digits: nat)
    requires value < Pow16(digits)
    ensures HexValue(IntToHexString(value, digits)) == value
    decreases digits
  {
    if digits > 0 {
      HexRoundTrip(value / 16, digits - 1);
      var s := IntToHexString(value, digits);
      assert s[..|s| - 1] == IntToHexString(value / 16, digits - 1);
    }
  }

  /** Division of a quotient: (v / 2) / d == v / (2 * d). */
  lemma HalveThenDivide(v: nat, d: nat)
    requires d > 0
    ensures (v / 2) / d == v / (2 * d)
  {
    var h := v / 2;
    var q := h / d;
    var r := h % d;
    assert h == d * q + r && 0 <= r < d;
    assert v == 2 * h + v % 2;
    assert v == (2 * d) * q + (2 * r + v % 2);
    assert 0 <= 2 * r + v % 2 < 2 * d;
    DivisionUnique(v, 2 * d, q, 2 * r + v % 2);
  }

  lemma DivisionUnique(v: nat, d: nat, q: nat, r: nat)
    requires d > 0 && v == d * q + r && r < d
    ensures v / d == q
  {
    var q' := v / d;
    var r' := v % d;
    assert d * (q - q') == r' - r;
    SmallMultipleIsZero(d, q - q');
  }

  lemma SmallMultipleIsZero(d: int, k: int)
    requires d > 0
    ensures -d < d * k < d ==> k == 0
  {
    if k >= 1 {
      assert d * k == d * (k - 1) + d;
    } else if k <= -1 {
      assert d * k == d * (k + 1) - d;
    }
  }

  /** value >> k on an unsigned integer: k halvings. */
  function ShiftRight(value: nat, k: nat): nat
    decreases k
  {
    if k == 0 then value else ShiftRight(value / 2, k - 1)
  }

  /** A right shift by k is floor division by 2^k. */
  lemma {:induction false} ShiftRightIsDivision(value: nat, k: nat)
    ensures ShiftRight(value, k) == value / Pow2(k)
    decreases k
  {
    if k > 0 {
      ShiftRightIsDivision(value / 2, k - 1);
      HalveThenDivide(value, Pow2(k - 1));
    }
  }

  /** The KiB-to-MiB conversion the memory handlers write (`>> 10`). */
  function KiBToMiB(kib: nat): (mib: nat)
    ensures mib == kib / 1024
    ensures mib * 1024 <= kib < mib * 1024 + 1024
  {
    ShiftRightIsDivision(kib, 10);
    assert Pow2(10) == 1024;
    ShiftRight(kib, 10)
  }
}

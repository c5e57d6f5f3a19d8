/** Rust's decimal integer parsing as the box-dimension parser uses it:
    `u64::from_str` and the `i64::try_from(u64)` range check. Values are
    unbounded naturals; the 64-bit bounds are explicit constants. */
module Decimal {
  import opened Results

  /** `u64::MAX` */
  const U64_MAX: nat := 0xFFFF_FFFF_FFFF_FFFF
  /** `i64::MAX` */
  const I64_MAX: nat := 0x7FFF_FFFF_FFFF_FFFF

  predicate IsDigit(c: char) {
    '0' <= c <= '9'
  }

  predicate AllDigits(s: string) {
    forall k :: 0 <= k < |s| ==> IsDigit(s[k])
  }

  function DigitValue(c: char): (d: nat)
    requires IsDigit(c)
    ensures d < 10
  {
    (c as int) - ('0' as int)
  }

  function DigitChar(d: nat): (c: char)
    requires d < 10
    ensures IsDigit(c) && DigitValue(c) == d
  {
    (('0' as int) + d) as char
  }

  /** The value of a string of decimal digits, most significant first. */
  function Value(s: string): nat
    requires AllDigits(s)
    decreases |s|
  {
    if |s| == 0 then 0 else 10 * Value(s[..|s| - 1]) + DigitValue(s[|s| - 1])
  }

  /** `s.parse::<u64>()`: an optional leading `+`, then one or more ASCII
      digits whose value fits in 64 bits. A `-` sign, an empty string, any
      other character or a value above `u64::MAX` is a failure. */
  function ParseU64(s: string): (r: Option<nat>)
    ensures r.Some? ==> r.value <= U64_MAX
    ensures r.Some? ==> |s| > 0 && (IsDigit(s[0]) || s[0] == '+')
    ensures r.Some? ==> forall k :: 0 < k < |s| ==> IsDigit(s[k])
  {
    var digits := if |s| > 0 && s[0] == '+' then s[1..] else s;
    if |digits| == 0 || !AllDigits(digits) then None
    else
      var v := Value(digits);
      if v > U64_MAX then None else Some(v)
  }

  /** The shortest decimal spelling of `n`. */
  function ToDecimal(n: nat): (s: string)
    ensures |s| >= 1 && AllDigits(s)
    decreases n
  {
    if n < 10 then [DigitChar(n)] else ToDecimal(n / 10) + [DigitChar(n % 10)]
  }

  /** Reading back the decimal spelling of `n` gives `n`. */
  lemma {:induction false} ValueOfDecimal(n: nat)
    ensures Value(ToDecimal(n)) == n
    decreases n
  {
    if n >= 10 {
      ValueOfDecimal(n / 10);
      var s := ToDecimal(n);
      assert s[..|s| - 1] == ToDecimal(n / 10);
    }
  }

  /** `u64::from_str` accepts the decimal spelling of every value in range,
      with or without a `+` sign, and rejects that of every value above. */
  lemma ParseU64OfDecimal(n: nat)
    ensures ParseU64(ToDecimal(n)) == if n <= U64_MAX then Some(n) else None
    ensures ParseU64(['+'] + ToDecimal(n)) == if n <= U64_MAX then Some(n) else None
  {
    ValueOfDecimal(n);
    var s := ToDecimal(n);
    assert s[0] != '+';
    assert (['+'] + s)[1..] == s;
  }

  /** Leading zeros do not change the value read. */
  lemma ParseU64LeadingZero(s: string)
    requires |s| > 0 && AllDigits(s)
    ensures ParseU64(['0'] + s) == ParseU64(s)
  {
    LeadingZeroValue(s);
  }

  lemma {:induction false} LeadingZeroValue(s: string)
    requires AllDigits(s)
    ensures AllDigits(['0'] + s) && Value(['0'] + s) == Value(s)
    decreases |s|
  {
    if |s| > 0 {
      LeadingZeroValue(s[..|s| - 1]);
      assert (['0'] + s)[..|s|] == ['0'] + s[..|s| - 1];
    }
  }
}

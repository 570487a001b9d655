/** `YoctoNear`, the amount of NEAR in its smallest unit (10^-24 NEAR),
    held in a u128: unit conversions, saturating and checked arithmetic,
    and the rounded-up display. */
module Yocto {
  import opened Wrappers
  import opened Uint
  import Decimal

  /** yocto_near.rs:10-11 */
  const ONE_NEAR: nat := 1_000_000_000_000_000_000_000_000
  const ONE_MILLINEAR: nat := 1_000_000_000_000_000_000_000

  /** The abort of a u128 operation that overflows or divides by zero. */
  const ERR_MUL_OVERFLOW := "attempt to multiply with overflow"
  const ERR_DIV_ZERO := "attempt to divide by zero"

  /** yocto_near.rs:5-7: a wrapper around the u128 amount. Equality
      (yocto_near.rs:251-255, 269) and the derived order compare it. */
  datatype YoctoNear = YoctoNear(yocto: u128)

  lemma UnitsFit()
    ensures ONE_NEAR == 1000 * ONE_MILLINEAR
    ensures ONE_NEAR <= U128_MAX
  {
  }

  /** `from_near` (yocto_near.rs:17-19): aborts when the product overflows. */
  function FromNear(near: u128): (r: Result<YoctoNear>)
    ensures r.Ok? <==> near * ONE_NEAR <= U128_MAX
    ensures r.Ok? ==> r.value.yocto == near * ONE_NEAR
    ensures r.Err? ==> r.msg == ERR_MUL_OVERFLOW
  {
    if near * ONE_NEAR <= U128_MAX then Ok(YoctoNear(near * ONE_NEAR)) else Err(ERR_MUL_OVERFLOW)
  }

  /** `from_millinear` (yocto_near.rs:21-23) */
  function FromMillinear(millinear: u128): (r: Result<YoctoNear>)
    ensures r.Ok? <==> millinear * ONE_MILLINEAR <= U128_MAX
    ensures r.Ok? ==> r.value.yocto == millinear * ONE_MILLINEAR
    ensures r.Err? ==> r.msg == ERR_MUL_OVERFLOW
  {
    if millinear * ONE_MILLINEAR <= U128_MAX then Ok(YoctoNear(millinear * ONE_MILLINEAR)) else Err(ERR_MUL_OVERFLOW)
  }

  /** `as_near` (yocto_near.rs:25-27): whole NEAR, rounded down. */
  function AsNear(y: YoctoNear): (n: u128)
    ensures n * ONE_NEAR <= y.yocto < (n + 1) * ONE_NEAR
  {
    y.yocto / ONE_NEAR
  }

  /** `as_millinear` (yocto_near.rs:29-31): whole milliNEAR, rounded down. */
  function AsMillinear(y: YoctoNear): (m: u128)
    ensures m * ONE_MILLINEAR <= y.yocto < (m + 1) * ONE_MILLINEAR
  {
    y.yocto / ONE_MILLINEAR
  }

  /** Converting whole NEAR in and out is the identity when it fits. */
  lemma NearRoundTrip(near: u128)
    requires near * ONE_NEAR <= U128_MAX
    ensures FromNear(near).Ok? && AsNear(FromNear(near).value) == near
  {
    var y := FromNear(near).value;
    assert AsNear(y) * ONE_NEAR <= near * ONE_NEAR < (AsNear(y) + 1) * ONE_NEAR;
  }

  /** Converting whole milliNEAR in and out is the identity when it fits. */
  lemma MillinearRoundTrip(millinear: u128)
    requires millinear * ONE_MILLINEAR <= U128_MAX
    ensures FromMillinear(millinear).Ok? && AsMillinear(FromMillinear(millinear).value) == millinear
  {
    var y := FromMillinear(millinear).value;
    assert AsMillinear(y) * ONE_MILLINEAR <= millinear * ONE_MILLINEAR < (AsMillinear(y) + 1) * ONE_MILLINEAR;
  }

  /** Whole NEAR are the whole milliNEAR divided by a thousand. */
  lemma AsNearOfMillinear(y: YoctoNear)
    ensures AsNear(y) == AsMillinear(y) / 1000
  {
    var n, m := AsNear(y), AsMillinear(y);
    assert n * ONE_NEAR == (n * 1000) * ONE_MILLINEAR;
    assert (n + 1) * ONE_NEAR == ((n + 1) * 1000) * ONE_MILLINEAR;
    assert n * 1000 <= m < (n + 1) * 1000;
  }

  /** `saturating_add` and the `+` operator (yocto_near.rs:33-35,
      219-225): the sum, clamped to the largest u128. */
  function SaturatingAdd(a: YoctoNear, b: YoctoNear): (r: YoctoNear)
    ensures r.yocto == Min(a.yocto + b.yocto, U128_MAX)
  {
    YoctoNear(SatAdd(a.yocto, b.yocto))
  }

  /** `saturating_sub` and `-` (yocto_near.rs:37-39, 227-233): the
      difference, clamped at zero. */
  function SaturatingSub(a: YoctoNear, b: YoctoNear): (r: YoctoNear)
    ensures r.yocto == if b.yocto <= a.yocto then a.yocto - b.yocto else 0
  {
    YoctoNear(SatSub(a.yocto, b.yocto))
  }

  /** `saturating_mul` and `*` (yocto_near.rs:41-43, 235-241): the
      product, clamped to the largest u128. */
  function SaturatingMul(a: YoctoNear, k: u128): (r: YoctoNear)
    ensures r.yocto == Min(a.yocto * k, U128_MAX)
  {
    YoctoNear(SatMul(a.yocto, k))
  }

  /** `saturating_div` and `/` (yocto_near.rs:45-47, 243-249): unsigned
      division never overflows, so this is the floor quotient; a zero
      divisor aborts. */
  function SaturatingDiv(a: YoctoNear, k: u128): (r: Result<YoctoNear>)
    ensures r.Ok? <==> k != 0
    ensures r.Ok? ==> r.value.yocto * k <= a.yocto < (r.value.yocto + 1) * k
    ensures r.Err? ==> r.msg == ERR_DIV_ZERO
  {
    if k == 0 then Err(ERR_DIV_ZERO) else Ok(YoctoNear(a.yocto / k))
  }

  /** `checked_add` (yocto_near.rs:49-55) */
  function CheckedAddYocto(a: YoctoNear, b: YoctoNear): (r: Option<YoctoNear>)
    ensures r.None? <==> a.yocto + b.yocto > U128_MAX
    ensures r.Some? ==> r.value.yocto == a.yocto + b.yocto
  {
    match CheckedAdd(a.yocto, b.yocto)
    case Some(n) => Some(YoctoNear(n))
    case None => None
  }

  /** `checked_sub` (yocto_near.rs:57-63) */
  function CheckedSubYocto(a: YoctoNear, b: YoctoNear): (r: Option<YoctoNear>)
    ensures r.None? <==> a.yocto < b.yocto
    ensures r.Some? ==> r.value.yocto + b.yocto == a.yocto
  {
    match CheckedSub(a.yocto, b.yocto)
    case Some(n) => Some(YoctoNear(n))
    case None => None
  }

  /** `checked_mul` (yocto_near.rs:65-71) */
  function CheckedMulYocto(a: YoctoNear, k: u128): (r: Option<YoctoNear>)
    ensures r.None? <==> a.yocto * k > U128_MAX
    ensures r.Some? ==> r.value.yocto == a.yocto * k
  {
    if a.yocto * k <= U128_MAX then Some(YoctoNear(a.yocto * k)) else None
  }

  /** `checked_div` (yocto_near.rs:73-79) */
  function CheckedDivYocto(a: YoctoNear, k: u128): (r: Option<YoctoNear>)
    ensures r.None? <==> k == 0
    ensures r.Some? ==> r.value.yocto * k <= a.yocto < (r.value.yocto + 1) * k
  {
    if k == 0 then None else Some(YoctoNear(a.yocto / k))
  }

  /** The saturating results agree with the checked ones wherever those
      succeed, and sit at the bound where they fail. */
  lemma SaturatingAgreesWithChecked(a: YoctoNear, b: YoctoNear, k: u128)
    ensures CheckedAddYocto(a, b).Some? ==> SaturatingAdd(a, b) == CheckedAddYocto(a, b).value
    ensures CheckedAddYocto(a, b).None? ==> SaturatingAdd(a, b).yocto == U128_MAX
    ensures CheckedSubYocto(a, b).Some? ==> SaturatingSub(a, b) == CheckedSubYocto(a, b).value
    ensures CheckedSubYocto(a, b).None? ==> SaturatingSub(a, b).yocto == 0
    ensures CheckedMulYocto(a, k).Some? ==> SaturatingMul(a, k) == CheckedMulYocto(a, k).value
    ensures CheckedMulYocto(a, k).None? ==> SaturatingMul(a, k).yocto == U128_MAX
    ensures CheckedDivYocto(a, k).Some? ==> SaturatingDiv(a, k) == Ok(CheckedDivYocto(a, k).value)
  {
  }

  /** `is_zero` (yocto_near.rs:81-83) */
  predicate IsZero(y: YoctoNear)
  {
    y.yocto == 0
  }

  /** `is_some` (yocto_near.rs:85-87) */
  predicate IsSome(y: YoctoNear)
  {
    y.yocto != 0
  }

  /** Exactly one of the two holds. */
  lemma ZeroOrSome(y: YoctoNear)
    ensures IsZero(y) != IsSome(y)
    ensures IsZero(y) <==> y == YoctoNear(0)
  {
  }

  /** `to_string` (yocto_near.rs:89-91): the decimal amount, which reads
      back as the amount. */
  function ToString(y: YoctoNear): (s: string)
    ensures Decimal.AllDigits(s) && Decimal.Value(s) == y.yocto
  {
    Decimal.ValueShow(y.yocto);
    Decimal.Show(y.yocto)
  }

  /** `to_yocto_string` (yocto_near.rs:93-95) */
  function ToYoctoString(y: YoctoNear): (s: string)
    ensures |s| > 10 && s[|s| - 10..] == " YoctoNEAR"
    ensures Decimal.AllDigits(s[..|s| - 10]) && Decimal.Value(s[..|s| - 10]) == y.yocto
  {
    var digits := ToString(y);
    assert (digits + " YoctoNEAR")[..|digits|] == digits;
    digits + " YoctoNEAR"
  }

  /** `to_near_string` (yocto_near.rs:97-99): whole NEAR, rounded down. */
  function ToNearString(y: YoctoNear): (s: string)
    ensures |s| > 5 && s[|s| - 5..] == " NEAR"
    ensures Decimal.AllDigits(s[..|s| - 5]) && Decimal.Value(s[..|s| - 5]) == AsNear(y)
  {
    var digits := Decimal.Show(AsNear(y));
    Decimal.ValueShow(AsNear(y));
    assert (digits + " NEAR")[..|digits|] == digits;
    digits + " NEAR"
  }

  /** The conversions to and from u128 and the host's token type keep the
      amount (yocto_near.rs:102-124), and equality with a u128 compares
      it (yocto_near.rs:257-267). */
  function FromU128(n: u128): YoctoNear
  {
    YoctoNear(n)
  }

  function ToU128(y: YoctoNear): u128
  {
    y.yocto
  }

  /** The two conversions are inverse to each other. */
  lemma U128RoundTrip(n: u128, y: YoctoNear)
    ensures ToU128(FromU128(n)) == n && FromU128(ToU128(y)) == y
  {
  }

  predicate EqU128(y: YoctoNear, n: u128)
  {
    y.yocto == n
  }

  /** Equal amounts are equal values, in both comparisons. */
  lemma EqualityComparesAmount(a: YoctoNear, b: YoctoNear, n: u128)
    ensures a == b <==> a.yocto == b.yocto
    ensures EqU128(a, n) <==> a == FromU128(n)
  {
  }

  /** The milliNEAR amount the display shows for 1..=999 milliNEAR,
      rounded up (yocto_near.rs:183-184). */
  function MillinearRoundedUp(y: YoctoNear): nat
  {
    SatAdd(y.yocto, ONE_MILLINEAR - 1) / ONE_MILLINEAR
  }

  /** The hundredths of a NEAR the display shows above 999 milliNEAR,
      rounded up (yocto_near.rs:187-188). */
  function HundredthsRoundedUp(y: YoctoNear): nat
  {
    SatAdd(y.yocto, 10 * ONE_MILLINEAR - 1) / ONE_MILLINEAR / 10
  }

  /** `Display` (yocto_near.rs:176-197) */
  function Display(y: YoctoNear): (s: string)
    ensures y.yocto == 0 ==> s == "0 NEAR"
    ensures 0 < y.yocto < ONE_MILLINEAR ==> s == "<0.001 NEAR"
    ensures ONE_MILLINEAR <= y.yocto <= 999 * ONE_MILLINEAR ==>
              s == "0." + Decimal.PadZeros(Decimal.Show(MillinearRoundedUp(y)), 3) + " NEAR"
    ensures 999 * ONE_MILLINEAR < y.yocto ==>
              var n := HundredthsRoundedUp(y);
              s == Decimal.Show(n / 100) + "." + Decimal.PadZeros(Decimal.Show(n % 100), 2) + " NEAR"
  {
    if y == YoctoNear(0) then "0 NEAR"
    else if y.yocto < ONE_MILLINEAR then "<0.001 NEAR"
    else if y.yocto <= 999 * ONE_MILLINEAR then
      "0." + Decimal.PadZeros(Decimal.Show(MillinearRoundedUp(y)), 3) + " NEAR"
    else
      var n := HundredthsRoundedUp(y);
      Decimal.Show(n / 100) + "." + Decimal.PadZeros(Decimal.Show(n % 100), 2) + " NEAR"
  }

  /** Between 1 and 999 milliNEAR, the display shows three digits that
      read as the amount in milliNEAR rounded up. */
  lemma DisplayMillinear(y: YoctoNear)
    requires ONE_MILLINEAR <= y.yocto <= 999 * ONE_MILLINEAR
    ensures var m := MillinearRoundedUp(y);
            1 <= m <= 999
            && (m - 1) * ONE_MILLINEAR < y.yocto <= m * ONE_MILLINEAR
    ensures var s := Display(y);
            |s| == 10 && s[..2] == "0." && s[5..] == " NEAR"
            && Decimal.AllDigits(s[2..5]) && Decimal.Value(s[2..5]) == MillinearRoundedUp(y)
  {
    var m := MillinearRoundedUp(y);
    var v := y.yocto;
    assert SatAdd(v, ONE_MILLINEAR - 1) == v + ONE_MILLINEAR - 1;
    assert m * ONE_MILLINEAR <= v + ONE_MILLINEAR - 1 < (m + 1) * ONE_MILLINEAR;
    var digits := Decimal.Show(m);
    Decimal.ShowShort(m, 3);
    var padded := Decimal.PadZeros(digits, 3);
    Decimal.ValueShow(m);
    Decimal.ValuePadZeros(digits, 3);
    var s := Display(y);
    assert s == "0." + padded + " NEAR";
    assert s[2..5] == padded;
  }

  /** Above 999 milliNEAR the display counts hundredths of a NEAR,
      rounded up unless adding the rounding term saturates. */
  lemma HundredthsRounding(y: YoctoNear)
    ensures var n := HundredthsRoundedUp(y);
            (n - 1) * (10 * ONE_MILLINEAR) < y.yocto
            && (y.yocto + 10 * ONE_MILLINEAR - 1 <= U128_MAX ==> y.yocto <= n * (10 * ONE_MILLINEAR))
  {
    var v := y.yocto;
    var c := 10 * ONE_MILLINEAR;
    var t := SatAdd(v, c - 1);
    var n := HundredthsRoundedUp(y);
    var p := t / ONE_MILLINEAR;
    assert p * ONE_MILLINEAR <= t < (p + 1) * ONE_MILLINEAR;
    assert n * 10 <= p < (n + 1) * 10;
    assert n * c <= t < (n + 1) * c;
  }

  /** Above 999 milliNEAR, the display shows whole NEAR, a dot and two
      digits, which together read as the rounded hundredths. */
  lemma DisplayHundredths(y: YoctoNear)
    requires 999 * ONE_MILLINEAR < y.yocto
    ensures var s := Display(y);
            |s| > 8 && s[|s| - 5..] == " NEAR" && s[|s| - 8] == '.'
            && Decimal.AllDigits(s[|s| - 7..|s| - 5]) && Decimal.AllDigits(s[..|s| - 8])
            && Decimal.Value(s[..|s| - 8]) * 100 + Decimal.Value(s[|s| - 7..|s| - 5]) == HundredthsRoundedUp(y)
  {
    var n := HundredthsRoundedUp(y);
    var whole := Decimal.Show(n / 100);
    var frac := Decimal.Show(n % 100);
    Decimal.ShowShort(n % 100, 2);
    var padded := Decimal.PadZeros(frac, 2);
    Decimal.ValueShow(n / 100);
    Decimal.ValueShow(n % 100);
    Decimal.ValuePadZeros(frac, 2);
    DisplayFields(Display(y), whole, padded);
  }

  /** The fields of a text `whole.padded NEAR` with two digits after the dot. */
  lemma DisplayFields(s: string, whole: string, padded: string)
    requires |padded| == 2 && s == whole + "." + padded + " NEAR"
    ensures |s| >= 8 && s[|s| - 5..] == " NEAR" && s[|s| - 8] == '.'
    ensures s[..|s| - 8] == whole && s[|s| - 7..|s| - 5] == padded
  {
  }
}

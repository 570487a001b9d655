/** Decimal rendering of natural numbers, as Rust's `{}` formatting of an
    unsigned integer produces it, and its inverse reading. Used by error
    messages, by `YoctoNear`'s display and by `Version`. */
module Decimal {

  predicate IsDigit(c: char)
  {
    '0' <= c <= '9'
  }

  predicate AllDigits(s: string)
  {
    forall i :: 0 <= i < |s| ==> IsDigit(s[i])
  }

  function DigitChar(d: nat): (c: char)
    requires d < 10
    ensures IsDigit(c) && c as int - '0' as int == d
  {
    (d + '0' as int) as char
  }

  /** The shortest decimal rendering of `n`: no leading zero except "0". */
  function Show(n: nat): (s: string)
    ensures 1 <= |s| && AllDigits(s)
    ensures |s| > 1 ==> s[0] != '0'
    ensures n < 10 <==> |s| == 1
    decreases n
  {
    if n < 10 then [DigitChar(n)] else Show(n / 10) + [DigitChar(n % 10)]
  }

  /** The value of a string of decimal digits (the empty string is 0). */
  function Value(s: string): nat
    requires AllDigits(s)
  {
    if |s| == 0 then 0 else 10 * Value(s[..|s| - 1]) + (s[|s| - 1] as int - '0' as int)
  }

  /** Reading back what `Show` wrote gives the number. */
  lemma {:induction false} ValueShow(n: nat)
    ensures Value(Show(n)) == n
    decreases n
  {
    if n >= 10 {
      var s := Show(n);
      assert s[..|s| - 1] == Show(n / 10);
      ValueShow(n / 10);
    }
  }

  /** `Show` is injective: different numbers are never rendered alike. */
  lemma ShowInjective(m: nat, n: nat)
    ensures Show(m) == Show(n) ==> m == n
  {
    ValueShow(m);
    ValueShow(n);
  }

  /** Zero-padded format of width `w`: left-padded with zeros. */
  function PadZeros(s: string, w: nat): (r: string)
    ensures |r| == if |s| >= w then |s| else w
    ensures r[|r| - |s|..] == s
    ensures forall i :: 0 <= i < |r| - |s| ==> r[i] == '0'
  {
    if |s| >= w then s else seq(w - |s|, _ => '0') + s
  }

  /** Leading zeros do not change the value. */
  lemma {:induction false} ValuePadZeros(s: string, w: nat)
    requires AllDigits(s)
    ensures AllDigits(PadZeros(s, w)) && Value(PadZeros(s, w)) == Value(s)
    decreases |s|
  {
    var r := PadZeros(s, w);
    if |s| < w {
      if |s| == 0 {
        ValueZeros(r);
      } else {
        var t := s[..|s| - 1];
        ValuePadZeros(t, w - 1);
        assert r[..|r| - 1] == PadZeros(t, w - 1);
      }
    }
  }

  lemma {:induction false} ValueZeros(s: string)
    requires forall i :: 0 <= i < |s| ==> s[i] == '0'
    ensures AllDigits(s) && Value(s) == 0
    decreases |s|
  {
    if |s| > 0 {
      ValueZeros(s[..|s| - 1]);
    }
  }

  function Pow10(k: nat): (p: nat)
    ensures p >= 1
  {
    if k == 0 then 1 else 10 * Pow10(k - 1)
  }

  /** A number below `10^k` takes at most `k` digits. */
  lemma {:induction false} ShowShort(n: nat, k: nat)
    requires 1 <= k && n < Pow10(k)
    ensures |Show(n)| <= k
    decreases k
  {
    if n >= 10 {
      assert k > 1;
      ShowShort(n / 10, k - 1);
    }
  }

  /** The value of a digit string from its first digit. */
  lemma {:induction false} ValueFront(s: string)
    requires 1 <= |s| && AllDigits(s)
    ensures Value(s) == (s[0] as int - '0' as int) * Pow10(|s| - 1) + Value(s[1..])
    decreases |s|
  {
    if |s| > 1 {
      var init := s[..|s| - 1];
      var d := s[0] as int - '0' as int;
      var last := s[|s| - 1] as int - '0' as int;
      var p := Pow10(|s| - 2);
      ValueFront(init);
      assert init[1..] == s[1..][..|s| - 2];
      assert init[0] == s[0];
      assert s[1..][|s| - 2] == s[|s| - 1];
      assert Value(s) == 10 * Value(init) + last;
      assert Value(s[1..]) == 10 * Value(init[1..]) + last;
      assert Pow10(|s| - 1) == 10 * p;
      ShiftDigit(d, p, Value(init[1..]), last);
    }
  }

  /** Appending a digit multiplies the earlier terms by ten. */
  lemma ShiftDigit(d: int, p: int, rest: int, last: int)
    ensures 10 * (d * p + rest) + last == d * (10 * p) + (10 * rest + last)
  {
  }
}

/**
 * The JavaScript string operations the utilities rely on: rendering an
 * integer as text (`String(n)`, `${n}`, `n.toString()`), `padStart` with a
 * one-character filler and the one-argument form of `String.prototype.slice`.
 * `DecimalValue` reads a digit string back and is the partner of `NatToString`.
 */
module JsText {
  import opened Arith

  predicate IsDigit(c: char) {
    '0' <= c <= '9'
  }

  predicate AllDigits(s: string) {
    forall k :: 0 <= k < |s| ==> IsDigit(s[k])
  }

  function DigitChar(d: nat): (c: char)
    requires d < 10
    ensures IsDigit(c) && c as int - '0' as int == d
  {
    ('0' as int + d) as char
  }

  /** Decimal text of a non-negative integer, without leading zeros. */
  function NatToString(n: nat): (s: string)
    ensures |s| >= 1 && AllDigits(s)
    ensures |s| > 1 ==> s[0] != '0'
    ensures n < 10 <==> |s| == 1
    decreases n
  {
    if n < 10 then [DigitChar(n)] else NatToString(n / 10) + [DigitChar(n % 10)]
  }

  /** JavaScript's text of an integer: a minus sign, then the digits of its magnitude. */
  function IntToString(i: int): (s: string)
    ensures |s| >= 1
    ensures i >= 0 ==> AllDigits(s)
    ensures i < 0 ==> s[0] == '-' && AllDigits(s[1..])
  {
    if i < 0 then "-" + NatToString(-i) else NatToString(i)
  }

  /** The number a digit string denotes (leading zeros allowed). */
  function DecimalValue(s: string): nat
    requires AllDigits(s)
  {
    if s == [] then 0 else DecimalValue(s[..|s| - 1]) * 10 + (s[|s| - 1] as int - '0' as int)
  }

  /** Reading back the text of a number gives the number. */
  lemma {:induction false} DecimalValueOfNatToString(n: nat)
    ensures DecimalValue(NatToString(n)) == n
  {
    if n >= 10 {
      var s := NatToString(n);
      assert s[..|s| - 1] == NatToString(n / 10);
      DecimalValueOfNatToString(n / 10);
    }
  }

  /** A number of k digits, 10^(k-1) <= n < 10^k, is written with exactly k characters. */
  lemma {:induction false} NatToStringLength(n: nat, k: nat)
    requires k >= 1 && Pow10(k - 1) <= n < Pow10(k)
    ensures |NatToString(n)| == k
    decreases k
  {
    if k > 1 {
      assert Pow10(k - 1) == 10 * Pow10(k - 2);
      assert Pow10(k) == 10 * Pow10(k - 1);
      assert n == 10 * (n / 10) + n % 10;
      NatToStringLength(n / 10, k - 1);
    }
  }

  /** Numbers 1000 .. 9999 take four characters. */
  lemma FourDigitLength(n: nat)
    requires 1000 <= n <= 9999
    ensures |NatToString(n)| == 4
  {
    SmallPowers();
    NatToStringLength(n, 4);
  }

  /** Every number is below 10 to the power of its digit count. */
  lemma {:induction false} NatBelowPow10(n: nat)
    ensures n < Pow10(|NatToString(n)|)
    decreases n
  {
    if n >= 10 {
      NatBelowPow10(n / 10);
      assert |NatToString(n)| == |NatToString(n / 10)| + 1;
    }
  }

  /** The last k characters of s, or all of s when it is shorter. */
  function Last(s: string, k: nat): (t: string)
    ensures |t| == Min(k, |s|) && t == s[|s| - |t|..]
    ensures AllDigits(s) ==> AllDigits(t)
  {
    var t := s[|s| - Min(k, |s|)..];
    assert AllDigits(s) ==> AllDigits(t) by {
      if AllDigits(s) {
        forall j | 0 <= j < |t| ensures IsDigit(t[j]) {
          assert t[j] == s[|s| - Min(k, |s|) + j];
        }
      }
    }
    t
  }

  /** The last k characters of the text of n (all of it when shorter) denote n mod 10^k. */
  lemma {:induction false} SuffixValue(n: nat, k: nat)
    ensures DecimalValue(Last(NatToString(n), k)) == n % Pow10(k)
    decreases n
  {
    var s := NatToString(n);
    if k == 0 {
      assert Last(s, k) == [];
      DivModOfSum(n, 0, 1);
    } else if k >= |s| {
      assert Last(s, k) == s;
      DecimalValueOfNatToString(n);
      NatBelowPow10(n);
      PowMonotone(|s|, k);
      DivModOfSum(0, n, Pow10(k));
    } else {
      SuffixValue(n / 10, k - 1);
      SuffixStep(n, k);
    }
  }

  /** One more trailing digit: the last k digits of n extend the last k - 1 digits of n / 10. */
  lemma SuffixStep(n: nat, k: nat)
    requires 1 <= k < |NatToString(n)|
    requires DecimalValue(Last(NatToString(n / 10), k - 1)) == (n / 10) % Pow10(k - 1)
    ensures DecimalValue(Last(NatToString(n), k)) == n % Pow10(k)
  {
    var s, s' := NatToString(n), NatToString(n / 10);
    assert s == s' + [DigitChar(n % 10)];
    var t, t' := Last(s, k), Last(s', k - 1);
    assert t == t' + [DigitChar(n % 10)];
    DecimalValueSnoc(t', DigitChar(n % 10));
    ModTenStep(n, Pow10(k - 1));
  }

  /** Appending a digit multiplies the value by ten and adds the digit. */
  lemma DecimalValueSnoc(s: string, c: char)
    requires AllDigits(s) && IsDigit(c)
    ensures AllDigits(s + [c]) && DecimalValue(s + [c]) == DecimalValue(s) * 10 + (c as int - '0' as int)
  {
    assert (s + [c])[..|s|] == s;
  }

  lemma {:induction false} PowMonotone(j: nat, k: nat)
    requires j <= k
    ensures Pow10(j) <= Pow10(k)
    decreases k
  {
    if j < k {
      PowMonotone(j, k - 1);
    }
  }

  function Min(a: int, b: int): int {
    if a < b then a else b
  }

  lemma NatToStringInjective(m: nat, n: nat)
    ensures NatToString(m) == NatToString(n) <==> m == n
  {
    DecimalValueOfNatToString(m);
    DecimalValueOfNatToString(n);
  }

  lemma IntToStringInjective(i: int, j: int)
    ensures IntToString(i) == IntToString(j) <==> i == j
  {
    if IntToString(i) == IntToString(j) {
      if i < 0 && j < 0 {
        assert IntToString(i)[1..] == NatToString(-i);
        assert IntToString(j)[1..] == NatToString(-j);
        NatToStringInjective(-i, -j);
      } else if i >= 0 && j >= 0 {
        NatToStringInjective(i, j);
      }
    }
  }

  /** A leading zero does not change the value of a digit string. */
  lemma {:induction false} DecimalValueLeadingZero(s: string)
    requires AllDigits(s)
    ensures AllDigits("0" + s) && DecimalValue("0" + s) == DecimalValue(s)
    decreases |s|
  {
    var z := "0" + s;
    if s != [] {
      var init := s[..|s| - 1];
      assert z[..|z| - 1] == "0" + init;
      DecimalValueLeadingZero(init);
    }
  }

  /** `s.padStart(target, fill)` with a one-character filler. */
  function PadStart(s: string, target: int, fill: char): (r: string)
    ensures |r| == if |s| >= target then |s| else target
    ensures r[|r| - |s|..] == s
    ensures forall k :: 0 <= k < |r| - |s| ==> r[k] == fill
  {
    if |s| >= target then s else seq(target - |s|, _ => fill) + s
  }

  /**
   * `s.slice(start)`: a negative start counts from the end, and a start
   * beyond either end is clamped to it.
   */
  function SliceFrom(s: string, start: int): (r: string)
    ensures |r| <= |s| && r == s[|s| - |r|..]
    ensures start >= 0 ==> |r| == if start >= |s| then 0 else |s| - start
    ensures start < 0 ==> |r| == if -start >= |s| then |s| else -start
  {
    if start < 0 then
      (if |s| + start < 0 then s else s[|s| + start..])
    else
      (if start > |s| then s[|s|..] else s[start..])
  }
}

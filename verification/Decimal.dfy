/** Decimal numerals, as `String(n)` writes them, and the names built with them. */
module Decimal {
  function Digit(d: nat): char
    requires d < 10
  {
    "0123456789"[d]
  }

  function Numeral(n: nat): (s: string)
    ensures s != ""
  {
    if n < 10 then [Digit(n)] else Numeral(n / 10) + [Digit(n % 10)]
  }

  predicate AllDigits(s: string) {
    forall k :: 0 <= k < |s| ==> '0' <= s[k] <= '9'
  }

  lemma {:induction false} NumeralIsDigits(n: nat)
    ensures AllDigits(Numeral(n))
    decreases n
  {
    if n >= 10 {
      NumeralIsDigits(n / 10);
    }
  }

  lemma {:induction false} NumeralLength(n: nat)
    ensures |Numeral(n)| == 1 <==> n < 10
    decreases n
  {
    if n >= 10 {
      NumeralLength(n / 10);
    }
  }

  /** Different numbers have different numerals. */
  lemma {:induction false} NumeralInjective(m: nat, n: nat)
    requires Numeral(m) == Numeral(n)
    ensures m == n
    decreases m
  {
    NumeralLength(m);
    NumeralLength(n);
    if m < 10 {
    } else {
      var a, b := Numeral(m / 10), Numeral(n / 10);
      assert Numeral(m)[..|a|] == a && Numeral(n)[..|b|] == b;
      assert Numeral(m)[|a|] == Digit(m % 10) && Numeral(n)[|b|] == Digit(n % 10);
      NumeralInjective(m / 10, n / 10);
    }
  }

  /** The last dash before a run of digits can be found again. */
  lemma LastDash(x: string, d: string, y: string, e: string)
    requires AllDigits(d) && AllDigits(e)
    requires x + "-" + d == y + "-" + e
    ensures x == y && d == e
  {
    var s := x + "-" + d;
    assert s[|x|] == '-' && s[|y|] == '-';
    assert forall k :: |x| < k < |s| ==> s[k] == d[k - |x| - 1];
    assert forall k :: |y| < k < |s| ==> s[k] == e[k - |y| - 1];
    assert s[..|x|] == x && s[..|y|] == y;
    assert s[|x| + 1..] == d && s[|y| + 1..] == e;
  }
}

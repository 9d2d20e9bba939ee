/** Decimal rendering of natural numbers, used to give every SQL parameter a
    deterministic name where the mapper draws a random GUID. */
module Decimal {

  /** The character of a decimal digit. */
  function Digit(d: nat): (c: char)
    requires d < 10
    ensures '0' <= c <= '9'
  {
    (48 + d) as char
  }

  /** The shortest decimal rendering of `n`. */
  function Show(n: nat): (s: string)
    ensures |s| >= 1
    ensures n < 10 <==> |s| == 1
    ensures forall k :: 0 <= k < |s| ==> '0' <= s[k] <= '9'
    decreases n
  {
    if n < 10 then [Digit(n)] else Show(n / 10) + [Digit(n % 10)]
  }

  /** Distinct numbers have distinct renderings. */
  lemma {:induction false} ShowInjective(a: nat, b: nat)
    ensures Show(a) == Show(b) ==> a == b
    decreases a
  {
    if Show(a) == Show(b) {
      if a < 10 || b < 10 {
        assert a < 10 && b < 10;
        assert Show(a)[0] == Show(b)[0];
      } else {
        var sa, sb := Show(a), Show(b);
        assert sa[|sa| - 1] == Digit(a % 10);
        assert sb[|sb| - 1] == Digit(b % 10);
        assert sa[..|sa| - 1] == Show(a / 10);
        assert sb[..|sb| - 1] == Show(b / 10);
        ShowInjective(a / 10, b / 10);
      }
    }
  }
}

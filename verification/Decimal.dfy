/** Base-ten rendering of non-negative integers, as strconv.FormatInt and FormatUint produce it. */
module Decimal {
  import opened Types

  const ZERO: byte := 48
  const NINE: byte := 57
  const COLON: byte := 58

  predicate IsDigit(b: byte) {
    ZERO <= b <= NINE
  }

  predicate AllDigits(s: Text) {
    forall i :: 0 <= i < |s| ==> IsDigit(s[i])
  }

  function Digit(d: nat): byte
    requires d < 10
  {
    (48 + d) as byte
  }

  function Format(n: nat): (s: Text)
    ensures |s| > 0
  {
    if n < 10 then [Digit(n)] else Format(n / 10) + [Digit(n % 10)]
  }

  /** The number a digit string denotes. */
  function ValueOf(s: Text): nat
    requires AllDigits(s)
  {
    if s == [] then 0 else 10 * ValueOf(s[..|s| - 1]) + (s[|s| - 1] as int - 48)
  }

  /** Rendering and evaluating undo each other; a rendering has no superfluous leading zero. */
  lemma {:induction false} FormatDenotes(n: nat)
    ensures AllDigits(Format(n)) && ValueOf(Format(n)) == n
    ensures n > 0 ==> Format(n)[0] != ZERO
  {
    if n >= 10 {
      FormatDenotes(n / 10);
      var s := Format(n);
      assert s[..|s| - 1] == Format(n / 10);
      assert s[0] == Format(n / 10)[0];
    }
  }

  lemma FormatInjective(a: nat, b: nat)
    requires Format(a) == Format(b)
    ensures a == b
  {
    FormatDenotes(a);
    FormatDenotes(b);
  }

  /** A number followed by a colon can be cut off again, whatever follows the colon. */
  lemma FieldInjective(a: nat, x: Text, b: nat, y: Text)
    requires Format(a) + [COLON] + x == Format(b) + [COLON] + y
    ensures a == b && x == y
  {
    var s, t := Format(a), Format(b);
    FormatDenotes(a);
    FormatDenotes(b);
    var whole := s + [COLON] + x;
    assert whole[|s|] == COLON && whole[|t|] == COLON;
    assert |s| == |t|;
    assert s == whole[..|s|] == t;
    assert x == whole[|s| + 1..] == y;
    FormatInjective(a, b);
  }
}

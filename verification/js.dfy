/**
  The handful of JavaScript value semantics the spin controller relies on.

  Every timing and cursor field of the controller holds a JavaScript number
  that may also be `undefined` (never assigned) or `NaN` (the result of
  arithmetic on `undefined`). Only integer numbers are modelled.
 */
module Js {

  /** A numeric JavaScript value: `undefined`, `NaN`, or an integer. */
  datatype Num = Undefined | NaN | Int(i: int)

  datatype Option<+T> = None | Some(value: T) {
    function GetOr(default: T): T {
      match this
      case Some(v) => v
      case None => default
    }
  }

  /** JavaScript truthiness of a number: `undefined`, `NaN` and `0` are falsy. */
  predicate Falsy(v: Num) {
    !v.Int? || v.i == 0
  }

  /**
    The merge `x || (x = given)`: keep the current value unless it is falsy,
    in which case take the given one (which may itself be falsy).
   */
  function FillIn(current: Num, given: Num): (r: Num)
    ensures r == current || r == given
    ensures Falsy(r) <==> Falsy(current) && Falsy(given)
    ensures !Falsy(current) ==> r == current
    ensures Falsy(current) ==> r == given
  {
    if Falsy(current) then given else current
  }

  /** The defaulting `v || 0`, as a JavaScript number. */
  function OrZero(v: Num): (r: int)
    ensures r != 0 <==> !Falsy(v)
    ensures r != 0 ==> v == Int(r)
  {
    if Falsy(v) then 0 else v.i
  }

  /** Addition `a + b`: anything other than two numbers gives `NaN`. */
  function Plus(a: Num, b: Num): (r: Num)
    ensures r != Undefined
    ensures r.Int? <==> a.Int? && b.Int?
    ensures r.Int? ==> r.i - a.i == b.i
  {
    if a.Int? && b.Int? then Int(a.i + b.i) else NaN
  }

  /** The comparison `a > b`: false whenever either side is not a number. */
  predicate Greater(a: Num, b: Num) {
    a.Int? && b.Int? && a.i > b.i
  }

  /** Strict equality `a === b`: `undefined` equals itself, `NaN` equals nothing. */
  predicate StrictEquals(a: Num, b: Num) {
    match a
    case Undefined => b == Undefined
    case NaN => false
    case Int(x) => b == Int(x)
  }

  /**
    The remainder `a % n` for a non-negative divisor. JavaScript truncates
    toward zero, so the result takes the sign of the dividend, unlike
    Dafny's Euclidean `%`; a zero divisor or a non-number gives `NaN`.
   */
  function Rem(a: Num, n: nat): (r: Num)
    ensures r.Int? <==> a.Int? && n > 0
    ensures !r.Int? ==> r == NaN
    ensures r.Int? && a.i >= 0 ==> r.i == a.i % n
    ensures r.Int? && a.i < 0 ==> -(n as int) < r.i <= 0 && (r.i == 0 <==> a.i % n == 0)
    ensures r.Int? ==> (a.i - r.i) % n == 0
  {
    if a.Int? && n > 0 then
      NegatedRemainder(a.i, n);
      var r := if a.i >= 0 then a.i % n else -((-a.i) % n);
      CongruentRemainder(a.i, n);
      Int(r)
    else
      NaN
  }

  /** The truncated remainder differs from the dividend by a multiple of `n`. */
  lemma CongruentRemainder(a: int, n: int)
    requires n > 0
    ensures (a - (if a >= 0 then a % n else -((-a) % n))) % n == 0
  {
    if a >= 0 {
      assert a == (a / n) * n + a % n;
      MultipleRemainder(a / n, n);
    } else {
      var b := -a;
      assert b == (b / n) * n + b % n;
      assert a - (-(b % n)) == (-(b / n)) * n;
      MultipleRemainder(-(b / n), n);
    }
  }

  /** A number divides `a` exactly when it divides `-a`. */
  lemma NegatedRemainder(a: int, n: int)
    requires n > 0
    ensures (-a) % n == 0 <==> a % n == 0
  {
    if a % n == 0 {
      var q := a / n;
      assert a == q * n;
      assert -a == (-q) * n;
      MultipleRemainder(-q, n);
    }
    if (-a) % n == 0 {
      var q := (-a) / n;
      assert -a == q * n;
      assert a == (-q) * n;
      MultipleRemainder(-q, n);
    }
  }

  lemma MultipleRemainder(q: int, n: int)
    requires n > 0
    ensures (q * n) % n == 0
  {
    var m := q * n;
    var k := q - m / n;
    assert m == (m / n) * n + m % n;
    assert k * n == m % n;
  }
}

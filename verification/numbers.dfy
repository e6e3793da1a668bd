/** JavaScript number behaviour the front end depends on, stated over
    unbounded integers and reals: the non-finite values `Number(...)` can
    produce, the truncating remainder `%`, and the index conversion of
    `Array.prototype.slice`.
 */
module Numbers {

  /** A JavaScript number: a finite value, an infinity, or NaN. */
  datatype JsNumber = Finite(value: real) | PosInfinity | NegInfinity | NaN

  /** The two conversions between numbers and text: `Number(text)` and
      `String(number)`. Both are locale-independent but are not modelled
      character by character, so the model takes them as parameters. */
  datatype Conversions = Conversions(toNumber: string -> JsNumber, toText: real -> string)

  /** `Number(String(x)) === x` for the one value `x`, with a non-empty
      text. ECMAScript promises this for every double, since `String` gives
      the shortest text that reads back as the same double. A real that is
      not a double, such as 1/3, does not read back, so the model asks for
      the round trip only of the values it needs. */
  predicate RoundTripsAt(c: Conversions, x: real) {
    c.toText(x) != "" && c.toNumber(c.toText(x)) == Finite(x)
  }

  /** The per-value round trip asks for something a conversion pair can
      meet, for any value. */
  lemma RoundTripsAtSatisfiable(x: real)
    ensures exists c :: RoundTripsAt(c, x)
  {
    var c := Conversions((t: string) => Finite(x), (y: real) => "0");
    assert RoundTripsAt(c, x);
  }

  /** The remainder of a number already below the divisor. */
  lemma ModSmall(a: int, b: int)
    requires 0 <= a < b
    ensures a % b == a
  {
  }

  /** The remainder of a number between one and two divisors. */
  lemma ModWrap(a: int, b: int)
    requires 0 < b <= a < 2 * b
    ensures a % b == a - b
  {
  }

  /** Twice the divisor leaves no remainder. */
  lemma ModTwice(b: int)
    requires 0 < b
    ensures (2 * b) % b == 0
  {
  }

  /** `x >= n` for a finite `x`. */
  predicate AtLeast(x: real, n: JsNumber) {
    match n
    case Finite(v) => x >= v
    case PosInfinity => false
    case NegInfinity => true
    case NaN => false
  }

  /** `x <= n` for a finite `x`. */
  predicate AtMost(x: real, n: JsNumber) {
    match n
    case Finite(v) => x <= v
    case PosInfinity => true
    case NegInfinity => false
    case NaN => false
  }

  function Abs(a: int): (r: int)
    ensures 0 <= r && (r == a || r == -a)
  {
    if a < 0 then -a else a
  }

  /** The `%` operator on integers: the result takes the sign of the dividend
      (Dafny's own `%` is Euclidean and never negative). */
  function Rem(a: int, b: int): (r: int)
    requires b != 0
    ensures 0 <= a && 0 < b ==> r == a % b
    ensures 0 <= a ==> 0 <= r < Abs(b)
    ensures a < 0 ==> -Abs(b) < r <= 0
    ensures Abs(r) == Abs(a) % Abs(b)
  {
    var m := Abs(a) % Abs(b);
    if a < 0 then -m else m
  }

  /** `Rem` is the remainder of division truncated toward zero: the dividend
      minus the remainder is a whole multiple of the divisor, and with the
      sign and bound above this fixes the value. */
  lemma RemIsTruncatedRemainder(a: int, b: int)
    requires b != 0
    ensures exists q :: a == q * b + Rem(a, b)
  {
    var m := Abs(a) % Abs(b);
    var k := Abs(a) / Abs(b);
    assert Abs(a) == k * Abs(b) + m;
    var q := if (a < 0) == (b < 0) then k else -k;
    assert a == q * b + Rem(a, b);
  }

  /** ToIntegerOrInfinity of a finite value: truncation toward zero. */
  function Trunc(x: real): (n: int)
    ensures 0.0 <= x ==> n as real <= x < n as real + 1.0
    ensures x < 0.0 ==> n as real - 1.0 < x <= n as real
  {
    if x >= 0.0 then x.Floor else -((-x).Floor)
  }

  /** `s.slice(start, end)` for finite `start` and `end`: negative positions
      count from the end, and everything is clamped to the sequence. */
  function Slice<T>(s: seq<T>, start: real, end: real): (r: seq<T>)
    ensures |r| <= |s|
  {
    var from := Clamp(Trunc(start), |s|);
    var to := Clamp(Trunc(end), |s|);
    if from < to then s[from..to] else []
  }

  /** A relative slice position resolved against a length. */
  function Clamp(i: int, len: nat): (k: nat)
    ensures k <= len
    ensures 0 <= i <= len ==> k == i
  {
    if i < 0 then (if len + i < 0 then 0 else len + i)
    else if i > len then len
    else i
  }
}

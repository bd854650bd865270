/** The small generic helpers of utils.hpp. */
module Utils {
  import opened Wrappers
  import Arith

  const INT_MIN: int := -0x8000_0000
  const INT_MAX: int := 0x7fff_ffff

  /** C++ `int`. */
  type int32 = x: int | INT_MIN <= x <= INT_MAX

  /** `std::min(a, b)`: `b` when `b < a`, otherwise `a`. */
  function Min(a: int, b: int): (r: int)
    ensures r <= a && r <= b && (r == a || r == b)
  {
    if b < a then b else a
  }

  /** `std::max(a, b)`: `b` when `a < b`, otherwise `a`. */
  function Max(a: int, b: int): (r: int)
    ensures r >= a && r >= b && (r == a || r == b)
  {
    if a < b then b else a
  }

  /** `min3(a, b, c)`: the smallest of three values. */
  function Min3(a: int, b: int, c: int): (r: int)
    ensures r <= a && r <= b && r <= c
    ensures r == a || r == b || r == c
  {
    Min(c, Min(a, b))
  }

  /** `max3(a, b, c)`: the largest of three values. */
  function Max3(a: int, b: int, c: int): (r: int)
    ensures r >= a && r >= b && r >= c
    ensures r == a || r == b || r == c
  {
    Max(c, Max(a, b))
  }

  /** The absolute value of an exact integer. */
  function Abs(a: int): nat
  {
    if a < 0 then -a else a
  }

  /** `IntAbs(a)`; negating `INT_MIN` overflows, so callers must not pass it.
      Every other `int` has its absolute value as an `int`. */
  function IntAbs(a: int32): (r: int32)
    requires a != INT_MIN
    ensures r >= 0
    ensures r == a || r == -a
    ensures a >= 0 ==> r == a
    ensures r == Abs(a)
  {
    if a > 0 then a else -a
  }

  /** `Clamp(v, minValue, maxValue) = max(minValue, min(maxValue, v))`. */
  function Clamp(v: int, minValue: int, maxValue: int): (r: int)
    ensures minValue <= maxValue ==> minValue <= r <= maxValue
    ensures minValue <= v <= maxValue ==> r == v
    ensures minValue <= maxValue < v ==> r == maxValue
    ensures v < minValue ==> r == minValue
  {
    Max(minValue, Min(maxValue, v))
  }

  /** Clamping an already clamped value changes nothing. */
  lemma ClampIdempotent(v: int, minValue: int, maxValue: int)
    ensures Clamp(Clamp(v, minValue, maxValue), minValue, maxValue) == Clamp(v, minValue, maxValue)
  {
  }

  /** `lerp(a, b, v) = (1 - v) * a + v * b`, on exact reals. */
  function Lerp(a: real, b: real, v: real): (r: real)
    ensures 0.0 <= v <= 1.0 && a <= b ==> a <= r <= b
    ensures 0.0 <= v <= 1.0 && b <= a ==> b <= r <= a
    ensures v == 0.0 ==> r == a
    ensures v == 1.0 ==> r == b
  {
    var r := (1.0 - v) * a + v * b;
    assert r == a + v * (b - a) && b - r == (1.0 - v) * (b - a);
    assert 0.0 <= v <= 1.0 && a <= b ==> a <= r <= b by {
      if 0.0 <= v <= 1.0 && a <= b {
        Arith.RealMulNonNeg(v, b - a);
        Arith.RealMulNonNeg(1.0 - v, b - a);
      }
    }
    assert 0.0 <= v <= 1.0 && b <= a ==> b <= r <= a by {
      if 0.0 <= v <= 1.0 && b <= a {
        Arith.RealMulNonNeg(v, a - b);
        Arith.RealMulNonNeg(1.0 - v, a - b);
      }
    }
    r
  }

  /** `RAND_MAX` of the C library, here glibc's. */
  const RAND_MAX: nat := 0x7fff_ffff
  /** A value `rand()` can return. */
  type RandValue = r: int | 0 <= r <= RAND_MAX

  /** `randf(a, b)`: `a` to `b` by the fraction `rand() / RAND_MAX`. */
  function RandF(a: real, b: real, r: RandValue): (x: real)
    requires a <= b
    ensures a <= x <= b
  {
    Lerp(a, b, r as real / RAND_MAX as real)
  }

  /** A nullable pointer variable: `target == None` is `nullptr`. */
  class Ptr<T> {
    var target: Option<T>

    constructor (t: Option<T>)
      ensures target == t
    {
      target := t;
    }
  }

  /** `exch_null(t)`: hands back the old value of `t` and leaves `t` null. */
  method ExchNull<T>(t: Ptr<T>) returns (tmp: Option<T>)
    modifies t
    ensures tmp == old(t.target)
    ensures t.target == None
  {
    tmp := t.target;
    t.target := None;
  }

  /** `cont.find(key)`: the position of the first element equal to `key`,
      or `|cont|` (the end iterator) when there is none. The container is
      given by its elements in iteration order. */
  function Find<T(==)>(cont: seq<T>, key: T): (r: nat)
    ensures r <= |cont|
    ensures r < |cont| ==> cont[r] == key
    ensures forall i :: 0 <= i < r ==> cont[i] != key
  {
    if cont == [] then 0
    else if cont[0] == key then 0
    else 1 + Find(cont[1..], key)
  }

  /** `contains(cont, key) = cont.find(key) != end(cont)`. */
  function Contains<T(==)>(cont: seq<T>, key: T): (r: bool)
    ensures r <==> key in cont
  {
    Find(cont, key) != |cont|
  }
}

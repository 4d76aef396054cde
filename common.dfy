/** Values shared by both maps: an optional value and the JavaScript numbers that
    the lenient cell parsers (`parseFloat`, unary `+`) produce. */
module Common {

  /** `undefined` (or `null`) versus a present value. */
  datatype Option<+T> = None | Some(value: T)

  /** A JavaScript number as produced by `parseFloat` or unary `+`: either NaN
      or a finite value. Infinities and the sign of zero are not modelled. */
  datatype JsNumber = NaN | Num(value: real)

  /** The character of a decimal digit. */
  function DigitChar(d: nat): (c: char)
    requires d < 10
    ensures '0' <= c <= '9' && c as int - '0' as int == d
  {
    ('0' as int + d) as char
  }

  /** `a <= y < b`: the membership test of `IntRange`, named so that its
      comprehension has a term to trigger on. */
  predicate Between(a: int, y: int, b: int)
  {
    a <= y < b
  }

  /** The integers `a <= y < b`. */
  function IntRange(a: int, b: int): (r: set<int>)
    ensures forall y :: y in r <==> a <= y < b
  {
    set y | a <= y < b && Between(a, y, b)
  }

  /** `IntRange(a, b)` has `b - a` elements. */
  lemma {:induction false} IntRangeCount(a: int, b: int)
    requires a <= b
    ensures |IntRange(a, b)| == b - a
    decreases b - a
  {
    if a < b {
      IntRangeCount(a + 1, b);
      assert IntRange(a, b) == IntRange(a + 1, b) + {a};
    }
  }
}

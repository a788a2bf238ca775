/** Points, the least and the greatest of two numbers, and counting instants in a window. */
module Measures {

  datatype Vec2 = Vec2(x: real, y: real)

  function Min(x: int, y: int): int {
    if x < y then x else y
  }

  function Max(x: int, y: int): int {
    if x < y then y else x
  }

  function MinR(x: real, y: real): real {
    if x < y then x else y
  }

  function MaxR(x: real, y: real): real {
    if y > x then y else x
  }

  /** How many of these instants fall in `[from, from + length)`. */
  function CountIn(instants: seq<real>, from: real, length: real): nat {
    if instants == [] then 0
    else
      var last := instants[|instants| - 1];
      CountIn(instants[..|instants| - 1], from, length) + (if from <= last < from + length then 1 else 0)
  }

  lemma QuotientAgainstOne(x: real, y: real)
    requires y > 0.0
    ensures x < y <==> x / y < 1.0
    ensures x == y <==> x / y == 1.0
  {
    var q := x / y;
    assert q * y == x;
    if q < 1.0 {
      assert (1.0 - q) * y > 0.0;
    } else if q > 1.0 {
      assert (q - 1.0) * y > 0.0;
    }
  }
}

/** Go integer division and the `image.Rectangle` type of Go's standard library. */
module Geometry {

  /** Go's `/` on int: truncates toward zero. */
  function GoDiv(a: int, b: int): (q: int)
    requires b != 0
    ensures a >= 0 && b > 0 ==> q == a / b
  {
    if a >= 0 && b > 0 then a / b
    else if a < 0 && b < 0 then (-a) / (-b)
    else if a < 0 then -((-a) / b)
    else -(a / (-b))
  }

  /** Go's `%` on int: the remainder takes the sign of the dividend. */
  function GoMod(a: int, b: int): (r: int)
    requires b != 0
    ensures a >= 0 && b > 0 ==> r == a % b
    ensures a == b * GoDiv(a, b) + r
  {
    if a >= 0 && b > 0 then a % b else a - b * GoDiv(a, b)
  }

  /** Euclidean division of a natural number: the multiple of the divisor
      reached lies within one divisor below the dividend. */
  lemma DivBounds(n: nat, d: int)
    requires d > 0
    ensures 0 <= d * (n / d) <= n && n - d * (n / d) < d
  {
    var r := n % d;
    assert n == d * (n / d) + r && 0 <= r < d;
  }

  /** With negative operands Go's `/` rounds toward zero, so negating either
      operand negates the quotient, and `%` takes the sign of the dividend
      and stays below the divisor in magnitude. */
  lemma GoDivTruncates(a: int, b: int)
    requires b != 0
    ensures GoDiv(-a, b) == -GoDiv(a, b) && GoDiv(a, -b) == -GoDiv(a, b)
    ensures a >= 0 ==> 0 <= b * GoDiv(a, b) <= a
    ensures a < 0 ==> a <= b * GoDiv(a, b) <= 0
    ensures a >= 0 ==> 0 <= GoMod(a, b) && GoMod(a, b) < (if b > 0 then b else -b)
    ensures a < 0 ==> GoMod(a, b) <= 0 && -GoMod(a, b) < (if b > 0 then b else -b)
  {
    var n := if a >= 0 then a else -a;
    var d := if b > 0 then b else -b;
    DivBounds(n, d);
    var p := d * (n / d);
    assert b * GoDiv(a, b) == (if a >= 0 then p else -p) by {
      ProductOfSigns(a, b, n / d);
    }
  }

  /** The product of the divisor and Go's quotient has the sign of the
      dividend and the magnitude of the Euclidean product of magnitudes. */
  lemma ProductOfSigns(a: int, b: int, q: int)
    requires b != 0 && q == (if a >= 0 then a else -a) / (if b > 0 then b else -b)
    ensures b * GoDiv(a, b) == (if a >= 0 then 1 else -1) * ((if b > 0 then b else -b) * q)
  {
    if a >= 0 && b > 0 {
    } else if a >= 0 {
      assert GoDiv(a, b) == -q;
    } else if b > 0 {
      assert GoDiv(a, b) == -q;
    } else {
      assert GoDiv(a, b) == q;
    }
  }

  /** `image.Rectangle`: Min is inclusive, Max exclusive. */
  datatype Rect = Rect(minX: int, minY: int, maxX: int, maxY: int) {
    function Dx(): int { maxX - minX }
    function Dy(): int { maxY - minY }

    /** `Rectangle.Empty`. */
    predicate IsEmpty() { minX >= maxX || minY >= maxY }

    /** Point (x, y) is covered by the rectangle. */
    predicate Contains(x: int, y: int) { minX <= x < maxX && minY <= y < maxY }

    /** Every point of this rectangle lies in `outer`. */
    predicate Within(outer: Rect)
    {
      IsEmpty() || (outer.minX <= minX && maxX <= outer.maxX && outer.minY <= minY && maxY <= outer.maxY)
    }

    /** `Rectangle.Intersect`: the empty result is the zero rectangle. */
    function Intersect(s: Rect): (r: Rect)
      ensures !r.IsEmpty() ==> forall x, y :: r.Contains(x, y) <==> Contains(x, y) && s.Contains(x, y)
      ensures r.IsEmpty() ==> forall x, y :: !(Contains(x, y) && s.Contains(x, y))
    {
      var r := Rect(if minX < s.minX then s.minX else minX,
                    if minY < s.minY then s.minY else minY,
                    if maxX > s.maxX then s.maxX else maxX,
                    if maxY > s.maxY then s.maxY else maxY);
      if r.IsEmpty() then ZeroRect() else r
    }
  }

  /** `image.Rectangle{}`. */
  function ZeroRect(): (r: Rect)
    ensures r.IsEmpty() && forall x, y :: !r.Contains(x, y)
  {
    Rect(0, 0, 0, 0)
  }

  /** `image.Rect(x0, y0, x1, y1)`: the corners are swapped when needed so that Min <= Max. */
  function MakeRect(x0: int, y0: int, x1: int, y1: int): (r: Rect)
    ensures r.minX <= r.maxX && r.minY <= r.maxY
    ensures {r.minX, r.maxX} == {x0, x1} && {r.minY, r.maxY} == {y0, y1}
    ensures x0 <= x1 && y0 <= y1 ==> r == Rect(x0, y0, x1, y1)
  {
    Rect(if x0 <= x1 then x0 else x1, if y0 <= y1 then y0 else y1,
         if x0 <= x1 then x1 else x0, if y0 <= y1 then y1 else y0)
  }

  /** The corners given to `image.Rect` end up as Min and Max in some order,
      so their sums are kept. */
  lemma MakeRectSpan(x0: int, y0: int, x1: int, y1: int)
    ensures MakeRect(x0, y0, x1, y1).minX + MakeRect(x0, y0, x1, y1).maxX == x0 + x1
    ensures MakeRect(x0, y0, x1, y1).minY + MakeRect(x0, y0, x1, y1).maxY == y0 + y1
  {
  }

  /** No point lies in both rectangles. */
  predicate Disjoint(a: Rect, b: Rect)
  {
    a.IsEmpty() || b.IsEmpty() || a.maxX <= b.minX || b.maxX <= a.minX || a.maxY <= b.minY || b.maxY <= a.minY
  }

  lemma DisjointMeansNoCommonPoint(a: Rect, b: Rect)
    requires Disjoint(a, b)
    ensures forall x, y :: !(a.Contains(x, y) && b.Contains(x, y))
  {
  }

  /** Containment is transitive. */
  lemma WithinTrans(a: Rect, b: Rect, c: Rect)
    requires a.Within(b) && b.Within(c)
    ensures a.Within(c)
  {
  }

  /** Rectangles inside two boxes that lie side by side, or one above the
      other, do not overlap. */
  lemma SeparatedBoxes(a: Rect, boxA: Rect, b: Rect, boxB: Rect)
    requires a.Within(boxA) && b.Within(boxB)
    requires boxA.maxX <= boxB.minX || boxA.maxY <= boxB.minY
    ensures Disjoint(a, b)
  {
  }

  /** Multiplying by a non-negative number keeps the order. */
  lemma MulMonotonic(a: int, b: int, c: int)
    requires a <= b && c >= 0
    ensures a * c <= b * c
  {
    assert (b - a) * c >= 0;
  }
}

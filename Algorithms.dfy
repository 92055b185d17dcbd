/**
 * The box getters of the recognition results: `PlateOcrContent.Rect` (the bounding box of
 * the four plate corners), `MulticlassContent.Rect` and `CarModelExtendContent.Rect` (a box
 * given by two corners), and `MulticlassContent.Name` (the label's enum identifier).
 *
 * `Points` is a nullable `List<int>`; the box is a `System.Drawing.Rectangle`, whose integer
 * fields and whose `Right`/`Bottom` sums are unchecked C# `int` arithmetic.
 */
module Algorithms {
  import opened Wrappers
  import opened Machine
  import opened Collections

  /** `System.Drawing.Rectangle` */
  datatype Rectangle = Rectangle(x: Int32, y: Int32, width: Int32, height: Int32) {
    function Right(): Int32 {
      Wrap32(x + width)
    }

    function Bottom(): Int32 {
      Wrap32(y + height)
    }
  }

  /** `Rectangle.Empty` */
  const Empty := Rectangle(0, 0, 0, 0)

  /** `Enumerable.Min` of a non-empty list. */
  function Min(xs: seq<int>): (m: int)
    requires xs != []
    ensures m in xs && forall k :: 0 <= k < |xs| ==> m <= xs[k]
    decreases |xs|
  {
    if |xs| == 1 then xs[0]
    else
      var rest := Min(xs[1..]);
      assert forall k :: 1 <= k < |xs| ==> xs[k] == xs[1..][k - 1];
      if xs[0] <= rest then xs[0] else rest
  }

  /** `Enumerable.Max` of a non-empty list. */
  function Max(xs: seq<int>): (m: int)
    requires xs != []
    ensures m in xs && forall k :: 0 <= k < |xs| ==> xs[k] <= m
    decreases |xs|
  {
    if |xs| == 1 then xs[0]
    else
      var rest := Max(xs[1..]);
      assert forall k :: 1 <= k < |xs| ==> xs[k] == xs[1..][k - 1];
      if xs[0] >= rest then xs[0] else rest
  }

  /** `xs` of the plate getter: the x-coordinates, at the even positions. */
  function CornerXs(points: seq<Int32>): (xs: seq<int>)
    requires |points| == 8
    ensures |xs| == 4 && AllInt32(xs) && forall k :: 0 <= k < 4 ==> xs[k] == points[2 * k]
  {
    seq(4, k requires 0 <= k < 4 => points[2 * k] as int)
  }

  /** `ys` of the plate getter: the y-coordinates, at the odd positions. */
  function CornerYs(points: seq<Int32>): (ys: seq<int>)
    requires |points| == 8
    ensures |ys| == 4 && AllInt32(ys) && forall k :: 0 <= k < 4 ==> ys[k] == points[2 * k + 1]
  {
    seq(4, k requires 0 <= k < 4 => points[2 * k + 1] as int)
  }

  /** `PlateOcrContent.Rect` */
  function PlateRect(points: Option<seq<Int32>>): (r: Rectangle)
    ensures !(points.Some? && |points.value| == 8) ==> r == Empty
  {
    if IsNullOrEmpty(points) || |points.value| != 8 then Empty
    else
      Box(CornerXs(points.value), CornerYs(points.value))
  }

  /** Every element of `xs` fits in an `int`. */
  predicate AllInt32(xs: seq<int>) {
    forall k :: 0 <= k < |xs| ==> IsInt32(xs[k])
  }

  /** `new Rectangle(xs.Min(), ys.Min(), xs.Max() - xs.Min(), ys.Max() - ys.Min())` */
  function Box(xs: seq<int>, ys: seq<int>): Rectangle
    requires xs != [] && ys != [] && AllInt32(xs) && AllInt32(ys)
  {
    var minX, minY := Min(xs), Min(ys);
    assert IsInt32(minX) && IsInt32(minY) by {
      var a :| 0 <= a < |xs| && xs[a] == minX;
      var b :| 0 <= b < |ys| && ys[b] == minY;
    }
    Rectangle(minX, minY, Wrap32(Max(xs) - minX), Wrap32(Max(ys) - minY))
  }

  /**
   * `r` is the least box around the points with x-coordinates `xs` and y-coordinates `ys`:
   * its width and height are not negative, every coordinate lies inside it, and a coordinate
   * lies on each of its four edges.
   */
  predicate Encloses(r: Rectangle, xs: seq<int>, ys: seq<int>) {
    && r.width >= 0 && r.height >= 0
    && r.x in xs && r.x + r.width in xs && r.y in ys && r.y + r.height in ys
    && (forall k :: 0 <= k < |xs| ==> r.x <= xs[k] <= r.x + r.width)
    && (forall k :: 0 <= k < |ys| ==> r.y <= ys[k] <= r.y + r.height)
  }

  /** While the spans fit in an `int`, the box of two coordinate lists is the least box around them. */
  lemma BoxBounds(xs: seq<int>, ys: seq<int>)
    requires xs != [] && ys != [] && AllInt32(xs) && AllInt32(ys)
    requires IsInt32(Max(xs) - Min(xs)) && IsInt32(Max(ys) - Min(ys))
    ensures Encloses(Box(xs, ys), xs, ys)
  {
  }

  /**
   * For eight coordinates, while the spans fit in an `int`, the plate box is the least box
   * around the four corners.
   */
  lemma PlateRectBoundsCorners(points: seq<Int32>)
    requires |points| == 8
    requires IsInt32(Max(CornerXs(points)) - Min(CornerXs(points)))
    requires IsInt32(Max(CornerYs(points)) - Min(CornerYs(points)))
    ensures Encloses(PlateRect(Some(points)), CornerXs(points), CornerYs(points))
  {
    PlateRectIsBox(points);
    BoxBounds(CornerXs(points), CornerYs(points));
  }

  /** For eight coordinates the plate box is the box of the corner lists. */
  lemma PlateRectIsBox(points: seq<Int32>)
    requires |points| == 8
    ensures PlateRect(Some(points)) == Box(CornerXs(points), CornerYs(points))
  {
  }

  /**
   * Coordinates far enough apart overflow the width: a plate with corners at the least and
   * at the greatest `int` has width -1.
   */
  lemma PlateRectWidthOverflow(points: seq<Int32>)
    requires |points| == 8 && points[0] == -TwoTo31 && points[2] == TwoTo31 - 1
    ensures PlateRect(Some(points)).width == -1
  {
    var xs := CornerXs(points);
    var m, n := Min(xs), Max(xs);
    assert m <= xs[0] && xs[1] <= n;
    assert m == -TwoTo31 && n == TwoTo31 - 1;
    assert PlateRect(Some(points)).width == Wrap32(n - m);
  }

  /**
   * The box from two corners `(x1, y1, x2, y2)`, shared by `MulticlassContent.Rect` and
   * `CarModelExtendContent.Rect`: the first corner and the unchecked differences to the second.
   */
  function CornerRect(points: Option<seq<Int32>>): (r: Rectangle)
    ensures !(points.Some? && |points.value| == 4) ==> r == Empty
  {
    if IsNullOrEmpty(points) || |points.value| != 4 then Empty
    else
      var p := points.value;
      Rectangle(p[0], p[1], Wrap32(p[2] as int - p[0]), Wrap32(p[3] as int - p[1]))
  }

  /**
   * For four coordinates the box starts at the first corner and its right and bottom edges are
   * the second corner, overflow or not. The coordinates are not reordered: without overflow
   * the width and height are the plain differences, negative when the second corner lies
   * left of or above the first.
   */
  lemma CornerRectCorners(points: seq<Int32>)
    requires |points| == 4
    ensures var r := CornerRect(Some(points));
      && r.x == points[0] && r.y == points[1]
      && r.Right() == points[2] && r.Bottom() == points[3]
      && (IsInt32(points[2] as int - points[0]) ==> r.width == points[2] as int - points[0])
      && (IsInt32(points[3] as int - points[1]) ==> r.height == points[3] as int - points[1])
      && (points[2] < points[0] && IsInt32(points[2] as int - points[0]) ==> r.width < 0)
  {
    Wrap32AddBack(points[0], points[2]);
    Wrap32AddBack(points[1], points[3]);
  }

  /** The identifiers of `MulticlassType`, by value 0 to 9. */
  const MulticlassNames: seq<string> :=
    ["car", "person", "motorbike", "bike", "tricycle", "face", "plate", "head", "tail", "shoulder"]

  /** The decimal digits of `n`. */
  function Digits(n: nat): (s: string)
    ensures |s| >= 1 && forall k :: 0 <= k < |s| ==> '0' <= s[k] <= '9'
    decreases n
  {
    if n < 10 then [('0' as int + n) as char]
    else Digits(n / 10) + [('0' as int + n % 10) as char]
  }

  /** The value of a string of decimal digits. */
  function DigitsValue(s: string): int
    decreases |s|
  {
    if s == [] then 0 else DigitsValue(s[..|s| - 1]) * 10 + (s[|s| - 1] as int - '0' as int)
  }

  /** The digits of a number read back as that number. */
  lemma {:induction false} DigitsRoundTrip(n: nat)
    ensures DigitsValue(Digits(n)) == n
    decreases n
  {
    if n >= 10 {
      DigitsRoundTrip(n / 10);
      var s := Digits(n);
      assert s[..|s| - 1] == Digits(n / 10);
    }
  }

  /** `Int32.ToString()`: optional minus sign, then the decimal digits. */
  function DecimalString(n: int): string {
    if n < 0 then "-" + Digits(-n) else Digits(n)
  }

  /**
   * `MulticlassContent.Name`, `Label.ToString()` for the label value `kind`: the enum identifier for a defined value,
   * otherwise the decimal text of the number.
   */
  function Name(kind: Int32): string {
    if 0 <= kind < |MulticlassNames| then MulticlassNames[kind] else DecimalString(kind)
  }

  /**
   * The names of the defined kinds are the enum's identifiers, distinct from each other;
   * any other value shows its number, which starts with '-' or a digit and so never looks
   * like an identifier.
   */
  lemma NameOfLabel(kind: Int32, other: Int32)
    ensures 0 <= kind <= 9 ==> Name(kind) == MulticlassNames[kind]
    ensures 0 <= kind <= 9 && 0 <= other <= 9 && kind != other ==> Name(kind) != Name(other)
    ensures !(0 <= kind <= 9) ==> Name(kind) !in MulticlassNames
    ensures kind >= 10 ==> DigitsValue(Name(kind)) == kind
  {
    if 0 <= kind <= 9 && 0 <= other <= 9 && kind != other {
      assert Name(kind)[0] != Name(other)[0] || |Name(kind)| != |Name(other)| || Name(kind) != Name(other);
    }
    if !(0 <= kind <= 9) {
      var s := Name(kind);
      assert s[0] == '-' || '0' <= s[0] <= '9';
      assert forall k :: 0 <= k < |MulticlassNames| ==> 'a' <= MulticlassNames[k][0] <= 'z';
    }
    if kind >= 10 {
      DigitsRoundTrip(kind);
    }
  }
}

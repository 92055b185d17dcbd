/**
 * The image geometry values of the protocol package: `ImagePoint`, `ImageSize` and
 * `ImageRect`. Their constructors only store their arguments, so each is a datatype whose
 * constructor takes the same arguments; the parameterless constructors leave every field 0.
 * Coordinates are C# `int`s, and `ImageRect.Size` subtracts them unchecked.
 */
module Drawing {
  import opened Wrappers
  import opened Machine

  datatype ImagePoint = ImagePoint(x: Int32, y: Int32) {
    /** `IsEmpty` */
    predicate IsEmpty() {
      x == 0 && y == 0
    }

    /** `Equals(ImagePoint other)`; `None` is a null `other`. */
    predicate Equals(other: Option<ImagePoint>) {
      other.Some? && x == other.value.x && y == other.value.y
    }
  }

  datatype ImageSize = ImageSize(width: Int32, height: Int32) {
    /** `IsEmpty` */
    predicate IsEmpty() {
      width == 0 && height == 0
    }

    /** `Equals(ImageSize other)`; `None` is a null `other`. */
    predicate Equals(other: Option<ImageSize>) {
      other.Some? && width == other.value.width && height == other.value.height
    }
  }

  datatype ImageRect = ImageRect(left: Int32, top: Int32, right: Int32, bottom: Int32) {
    /** `Size`: the unchecked differences of the opposite edges. */
    function Size(): ImageSize {
      ImageSize(Wrap32(right - left), Wrap32(bottom - top))
    }

    /** `IsEmpty` */
    predicate IsEmpty() {
      left == 0 && top == 0 && right == 0 && bottom == 0
    }
  }

  /** `new ImagePoint()` */
  function NewImagePoint(): (p: ImagePoint)
    ensures p.IsEmpty()
  {
    ImagePoint(0, 0)
  }

  /** `new ImageSize()` */
  function NewImageSize(): (s: ImageSize)
    ensures s.IsEmpty()
  {
    ImageSize(0, 0)
  }

  /** `new ImageRect()` */
  function NewImageRect(): (r: ImageRect)
    ensures r.IsEmpty() && r.Size().IsEmpty()
  {
    ImageRect(0, 0, 0, 0)
  }

  /** A point equals exactly the non-null points with both coordinates the same, and is empty exactly when it is the origin. */
  lemma PointEquality(p: ImagePoint, other: Option<ImagePoint>)
    ensures p.Equals(other) <==> other == Some(p)
    ensures !p.Equals(None)
    ensures p.IsEmpty() <==> p == NewImagePoint()
  {
  }

  /** A size equals exactly the non-null sizes with the same width and height. */
  lemma SizeEquality(s: ImageSize, other: Option<ImageSize>)
    ensures s.Equals(other) <==> other == Some(s)
    ensures !s.Equals(None)
    ensures s.IsEmpty() <==> s == NewImageSize()
  {
  }

  /**
   * The size of a rectangle is empty exactly when its opposite edges coincide, even when the
   * difference overflows; without overflow it is the plain difference. Adding the width back
   * to the left edge gives the right edge in every case.
   */
  lemma RectSize(r: ImageRect)
    ensures r.Size().IsEmpty() <==> r.right == r.left && r.bottom == r.top
    ensures IsInt32(r.right - r.left) ==> r.Size().width == r.right - r.left
    ensures IsInt32(r.bottom - r.top) ==> r.Size().height == r.bottom - r.top
    ensures Wrap32(r.left + r.Size().width) == r.right
    ensures Wrap32(r.top + r.Size().height) == r.bottom
  {
    Wrap32AddBack(r.left, r.right);
    Wrap32AddBack(r.top, r.bottom);
  }

  /** An empty rectangle has an empty size, but not the other way round. */
  lemma RectEmptyHasEmptySize(r: ImageRect)
    ensures r.IsEmpty() ==> r.Size().IsEmpty()
    ensures ImageRect(1, 1, 1, 1).Size().IsEmpty() && !ImageRect(1, 1, 1, 1).IsEmpty()
  {
  }
}

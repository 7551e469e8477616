/**
 * The coordinate mapping between Amethyst's tile map and a simple console.
 *
 * A simple console stores its cells row-major with row 0 at the top; the tile
 * map asks for cells by render point with row 0 at the bottom. The bridge turns
 * render point (x, y) of a width × height grid into the storage index
 * (height - 1 - y) * width + x, in `u32` arithmetic.
 */
module Grid {
  import opened Types

  /** A tile-map render point (`Point3<u32>`; the z coordinate is never read). */
  datatype Point = Point(x: uint32, y: uint32)

  /** A point lies on the width × height grid. */
  predicate InGrid(width: nat, height: nat, x: nat, y: nat)
  {
    x < width && y < height
  }

  /** The storage index the bridge computes for render point `pt`, or `None`
      where one of its `u32` operations overflows and a debug build panics. */
  function FlipIndex(width: uint32, height: uint32, pt: Point): (r: Option<uint32>)
    ensures r.Some? <==> 1 <= height && pt.y < height && (height - 1 - pt.y) * width + pt.x < U32_LIMIT
    ensures r.Some? ==> r.value == (height - 1 - pt.y) * width + pt.x
  {
    match CheckedSub(height, 1)
    case None => None
    case Some(top) =>
      match CheckedSub(top, pt.y)
      case None => None
      case Some(row) =>
        match CheckedMul(row, width)
        case None => None
        case Some(rowStart) =>
          assert rowStart + pt.x >= row * width;
          CheckedAdd(rowStart, pt.x)
  }

  /** The render point whose storage index is `i`: the inverse of `FlipIndex`. */
  function UnflipIndex(width: nat, height: nat, i: nat): (pt: Point)
    requires 1 <= width && i < width * height && width * height <= U32_LIMIT
    ensures InGrid(width, height, pt.x, pt.y)
  {
    DivBelowHeight(width, height, i);
    Point(i % width, height - 1 - i / width)
  }

  lemma DivBelowHeight(width: nat, height: nat, i: nat)
    requires 1 <= width && i < width * height
    ensures i / width < height
  {
    var q := i / width;
    assert q * width <= i;
    if height <= q {
      MulMonotonic(height, q, width);
      assert false;
    }
  }

  /** Index of column x of a row that starts at row * width, split back. */
  lemma RowColumn(width: nat, row: nat, x: nat)
    requires x < width
    ensures (row * width + x) / width == row
    ensures (row * width + x) % width == x
  {
    var i := row * width + x;
    var q, r := i / width, i % width;
    assert q * width + r == i;
    if q > row {
      MulMonotonic(row + 1, q, width);
      assert false;
    } else if q < row {
      MulMonotonic(q + 1, row, width);
      assert false;
    }
  }

  /** Every in-bounds render point maps to an index inside the grid: the tile
      lookup never overflows and never reads past `width * height` cells. */
  lemma FlipIndexInBounds(width: uint32, height: uint32, pt: Point)
    requires InGrid(width, height, pt.x, pt.y)
    requires width * height <= U32_LIMIT
    ensures FlipIndex(width, height, pt).Some?
    ensures FlipIndex(width, height, pt).value < width * height
  {
    var row := height - 1 - pt.y;
    assert row * width + pt.x < row * width + width == (row + 1) * width;
    assert (row + 1) * width <= height * width;
  }

  /** Distinct in-bounds render points read distinct cells. */
  lemma FlipIndexInjective(width: uint32, height: uint32, p: Point, q: Point)
    requires InGrid(width, height, p.x, p.y) && InGrid(width, height, q.x, q.y)
    requires width * height <= U32_LIMIT
    requires p != q
    ensures FlipIndex(width, height, p) != FlipIndex(width, height, q)
  {
    FlipIndexInBounds(width, height, p);
    FlipIndexInBounds(width, height, q);
    RowColumn(width, height - 1 - p.y, p.x);
    RowColumn(width, height - 1 - q.y, q.x);
  }

  /** Every cell of the grid is read by exactly the render point `UnflipIndex`
      names: the mapping is onto `[0, width * height)`. */
  lemma FlipIndexOnto(width: uint32, height: uint32, i: nat)
    requires 1 <= width && i < width * height && width * height <= U32_LIMIT
    ensures FlipIndex(width, height, UnflipIndex(width, height, i)) == Some(i)
  {
    var pt := UnflipIndex(width, height, i);
    FlipIndexInBounds(width, height, pt);
    assert (height - 1 - pt.y) == i / width;
    assert i == (i / width) * width + i % width;
  }

  /** Mapping a render point to its index and back gives the point again. */
  lemma FlipIndexRoundTrip(width: uint32, height: uint32, pt: Point)
    requires InGrid(width, height, pt.x, pt.y)
    requires width * height <= U32_LIMIT
    ensures FlipIndex(width, height, pt).Some?
    ensures UnflipIndex(width, height, FlipIndex(width, height, pt).value) == pt
  {
    FlipIndexInBounds(width, height, pt);
    RowColumn(width, height - 1 - pt.y, pt.x);
  }

  /** The y-flip: console cell (x, y), stored at y * width + x with row 0 at the
      top, is the cell the tile map draws at render point (x, height - 1 - y). */
  lemma RenderPointOfCell(width: uint32, height: uint32, x: uint32, y: uint32)
    requires InGrid(width, height, x, y)
    requires width * height <= U32_LIMIT
    ensures FlipIndex(width, height, Point(x, height - 1 - y)) == Some(y * width + x)
  {
    FlipIndexInBounds(width, height, Point(x, height - 1 - y));
  }
}

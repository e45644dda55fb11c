/** The shape rasteriser: nested integer loops that write one colour into an RGBA pixel
    buffer through a bounds-checked Set. Each drawing routine is specified by the exact set of
    pixels it paints (its footprint); every other pixel keeps its colour. */
module Raster {
  import opened GoInt

  /** A fully specified RGBA colour (Go's `color.RGBA`). */
  datatype RGBA = RGBA(r: uint8, g: uint8, b: uint8, a: uint8)

  /** The pixel buffer is indexed `img[x, y]`, column first, with bounds [0, Length0) x [0, Length1). */
  predicate InBounds(img: array2<RGBA>, i: int, j: int)
  {
    0 <= i < img.Length0 && 0 <= j < img.Length1
  }

  function Abs(x: int): (r: int)
    ensures r >= 0 && (r == x || r == -x)
  {
    if x < 0 then -x else x
  }

  /** `image.RGBA.Set`: a point outside the image bounds is ignored. */
  method Set(img: array2<RGBA>, x: int, y: int, c: RGBA)
    modifies img
    ensures forall i, j :: InBounds(img, i, j) ==> img[i, j] == (if i == x && j == y then c else old(img[i, j]))
  {
    if 0 <= x < img.Length0 && 0 <= y < img.Length1 {
      img[x, y] := c;
    }
  }

  /** An inner loop of the row-sweeping shapes: paints (x0 + d, row) for 0 <= d < len;
      a run whose length is not positive paints nothing. */
  method HorizontalRun(img: array2<RGBA>, x0: int, len: int, row: int, c: RGBA)
    modifies img
    ensures forall i, j :: InBounds(img, i, j) ==>
      img[i, j] == (if j == row && x0 <= i < x0 + len then c else old(img[i, j]))
  {
    var d := 0;
    while d < len
      invariant 0 <= d && (d <= len || d == 0)
      invariant forall i, j :: InBounds(img, i, j) ==>
        img[i, j] == (if j == row && x0 <= i < x0 + d then c else old(img[i, j]))
    {
      Set(img, x0 + d, row, c);
      d := d + 1;
    }
  }

  /** An inner loop of the column-sweeping triangles: paints (col, y0 + d) for 0 <= d < len. */
  method VerticalRun(img: array2<RGBA>, col: int, y0: int, len: int, c: RGBA)
    modifies img
    ensures forall i, j :: InBounds(img, i, j) ==>
      img[i, j] == (if i == col && y0 <= j < y0 + len then c else old(img[i, j]))
  {
    var d := 0;
    while d < len
      invariant 0 <= d && (d <= len || d == 0)
      invariant forall i, j :: InBounds(img, i, j) ==>
        img[i, j] == (if i == col && y0 <= j < y0 + d then c else old(img[i, j]))
    {
      Set(img, col, y0 + d, c);
      d := d + 1;
    }
  }

  // ---------------------------------------------------------------- footprints

  /** The rectangle [x, x + w) x [y, y + h); empty when w or h is not positive. */
  predicate InRect(x: int, y: int, w: int, h: int, i: int, j: int)
  {
    x <= i < x + w && y <= j < y + h
  }

  /** The circle test `dx*dx + dy*dy <= r*r`. */
  predicate InDisk(dx: int, dy: int, r: int)
  {
    dx * dx + dy * dy <= r * r
  }

  /** Pixels the circle loops visit and paint: offsets in [-r, r] on both axes that pass the
      circle test. */
  predicate InCircle(cx: int, cy: int, r: int, i: int, j: int)
  {
    -r <= i - cx <= r && -r <= j - cy <= r && InDisk(i - cx, j - cy, r)
  }

  /** Width of the diamond's row `dy` of a cell of side `size`. */
  function DiamondWidth(size: int, dy: int): int
  {
    size - Abs(dy - Quot(size, 2)) * 2
  }

  /** Pixels of the diamond: row y + dy (0 <= dy < size) holds the run of DiamondWidth(size, dy)
      pixels that starts half that width left of the column x + size/2. */
  predicate InDiamond(x: int, y: int, size: int, i: int, j: int)
  {
    var dy := j - y;
    var w := DiamondWidth(size, dy);
    var startX := x + Quot(size, 2) - Quot(w, 2);
    0 <= dy < size && startX <= i < startX + w
  }

  /** Pixels of a triangle (orientation 0 = up, 1 = right, 2 = down, 3 = left). Sweep line k
      (0 <= k < size) holds size - 2k pixels starting k past the cell's edge; up and down sweep
      rows (up from the bottom row, down from the top row), right and left sweep columns (right
      from the left column, left from the right column). */
  predicate InTriangle(orientation: int, x: int, y: int, size: int, i: int, j: int)
  {
    if orientation == 0 then
      var k := y + size - 1 - j; 0 <= k < size && x + k <= i < x + k + (size - k * 2)
    else if orientation == 1 then
      var k := i - x; 0 <= k < size && y + k <= j < y + k + (size - k * 2)
    else if orientation == 2 then
      var k := j - y; 0 <= k < size && x + k <= i < x + k + (size - k * 2)
    else if orientation == 3 then
      var k := x + size - 1 - i; 0 <= k < size && y + k <= j < y + k + (size - k * 2)
    else
      false
  }

  /** Pixels painted by drawShape for a cell anchored at (startX, startY). */
  predicate InShape(shapeType: int, startX: int, startY: int, cellSize: int, i: int, j: int)
  {
    if shapeType == 0 then InRect(startX, startY, cellSize, cellSize, i, j)
    else if shapeType == 1 then
      InCircle(startX + Quot(cellSize, 2), startY + Quot(cellSize, 2), Quot(cellSize, 2), i, j)
    else if shapeType == 2 then InDiamond(startX, startY, cellSize, i, j)
    else if shapeType == 3 then InTriangle(0, startX, startY, cellSize, i, j)
    else if shapeType == 4 then InTriangle(1, startX, startY, cellSize, i, j)
    else if shapeType == 5 then InTriangle(2, startX, startY, cellSize, i, j)
    else if shapeType == 6 then InTriangle(3, startX, startY, cellSize, i, j)
    else false
  }

  // ---------------------------------------------------------------- geometry of the footprints

  /** For a non-negative radius the circle loops paint exactly the pixels (cx + dx, cy + dy)
      with dx*dx + dy*dy <= r*r: the loop bounds cut nothing off. */
  lemma CircleIsDisk(cx: int, cy: int, r: int, i: int, j: int)
    requires r >= 0
    ensures InCircle(cx, cy, r, i, j) <==> InDisk(i - cx, j - cy, r)
  {
    var dx, dy := i - cx, j - cy;
    assert 0 <= dx * dx && 0 <= dy * dy;
    SquareBound(dx, r);
    SquareBound(dy, r);
  }

  /** An offset whose square is at most r*r lies within [-r, r]. */
  lemma SquareBound(a: int, r: int)
    requires 0 <= r
    ensures a * a <= r * r ==> -r <= a <= r
  {
    if a > r || a < -r {
      assert a * a - r * r == (a - r) * (a + r);
    }
  }

  /** A circle of a negative radius paints nothing. */
  lemma CircleOfNegativeRadiusIsEmpty(cx: int, cy: int, r: int, i: int, j: int)
    requires r < 0
    ensures !InCircle(cx, cy, r, i, j)
  {
  }

  /** The circle drawn in a cell stays within [start, start + cellSize] on both axes, one pixel
      more than the cell, and strictly inside the cell when cellSize is odd. */
  lemma CircleCellExtent(startX: int, startY: int, cellSize: int, i: int, j: int)
    requires cellSize >= 0 && InShape(1, startX, startY, cellSize, i, j)
    ensures startX <= i <= startX + cellSize && startY <= j <= startY + cellSize
    ensures cellSize % 2 == 1 ==> InRect(startX, startY, cellSize, cellSize, i, j)
  {
  }

  /** With an even cellSize the circle reaches one pixel past the cell: the pixel just right of
      the cell on its middle row is painted. */
  lemma CircleOverhangsEvenCell(startX: int, startY: int, cellSize: int)
    requires cellSize >= 2 && cellSize % 2 == 0
    ensures InShape(1, startX, startY, cellSize, startX + cellSize, startY + cellSize / 2)
    ensures !InRect(startX, startY, cellSize, cellSize, startX + cellSize, startY + cellSize / 2)
  {
  }

  /** The diamond is a ball of the L1 norm: twice the horizontal distance from the cell's centre
      column (x + (size-1)/2, a half pixel for even sizes) plus twice the vertical distance from
      row y + size/2 is at most size - 1. */
  lemma DiamondIsL1Ball(x: int, y: int, size: int, i: int, j: int)
    requires size >= 1
    ensures InDiamond(x, y, size, i, j) <==>
            Abs(2 * (i - x) - (size - 1)) + 2 * Abs(j - y - Quot(size, 2)) <= size - 1
  {
  }

  /** Square, diamond and the four triangles paint only pixels of their cell
      [startX, startX + cellSize) x [startY, startY + cellSize). */
  lemma ShapeStaysInCell(shapeType: int, startX: int, startY: int, cellSize: int, i: int, j: int)
    requires shapeType != 1 && InShape(shapeType, startX, startY, cellSize, i, j)
    ensures InRect(startX, startY, cellSize, cellSize, i, j)
  {
  }

  /** Sweep lines whose computed width size - 2k (or the diamond's row width) is not positive
      paint nothing: every painted pixel lies on a line of positive width. */
  lemma PaintedLinesHavePositiveWidth(x: int, y: int, size: int, i: int, j: int)
    ensures InDiamond(x, y, size, i, j) ==> DiamondWidth(size, j - y) > 0
    ensures InTriangle(0, x, y, size, i, j) ==> size - (y + size - 1 - j) * 2 > 0
    ensures InTriangle(1, x, y, size, i, j) ==> size - (i - x) * 2 > 0
    ensures InTriangle(2, x, y, size, i, j) ==> size - (j - y) * 2 > 0
    ensures InTriangle(3, x, y, size, i, j) ==> size - (x + size - 1 - i) * 2 > 0
  {
  }

  /** The up triangle's base is its bottom row, and each of its columns is a run that ends at
      the base; the down triangle is the up triangle flipped top to bottom, the left triangle
      is the right triangle flipped left to right, and the right triangle is the down triangle
      with the axes swapped. */
  lemma TriangleOrientations(x: int, y: int, size: int, i: int, j: int)
    ensures x <= i < x + size ==> InTriangle(0, x, y, size, i, y + size - 1)
    ensures InTriangle(0, x, y, size, i, j) && j < y + size - 1 ==> InTriangle(0, x, y, size, i, j + 1)
    ensures InTriangle(2, x, y, size, i, j) <==> InTriangle(0, x, y, size, i, 2 * y + size - 1 - j)
    ensures InTriangle(3, x, y, size, i, j) <==> InTriangle(1, x, y, size, 2 * x + size - 1 - i, j)
    ensures InTriangle(1, x, y, size, i, j) <==> InTriangle(2, y, x, size, j, i)
  {
  }

  // ---------------------------------------------------------------- drawing routines

  method DrawRect(img: array2<RGBA>, x: int, y: int, width: int, height: int, c: RGBA)
    modifies img
    ensures forall i, j :: InBounds(img, i, j) ==>
      img[i, j] == (if InRect(x, y, width, height, i, j) then c else old(img[i, j]))
  {
    var dy := 0;
    while dy < height
      invariant 0 <= dy && (dy <= height || dy == 0)
      invariant forall i, j :: InBounds(img, i, j) ==>
        img[i, j] == (if InRect(x, y, width, dy, i, j) then c else old(img[i, j]))
    {
      HorizontalRun(img, x, width, y + dy, c);
      dy := dy + 1;
    }
  }

  method DrawCircle(img: array2<RGBA>, centerX: int, centerY: int, radius: int, c: RGBA)
    modifies img
    ensures forall i, j :: InBounds(img, i, j) ==>
      img[i, j] == (if InCircle(centerX, centerY, radius, i, j) then c else old(img[i, j]))
  {
    var dy := -radius;
    while dy <= radius
      invariant -radius <= dy && (dy <= radius + 1 || dy == -radius)
      invariant forall i, j :: InBounds(img, i, j) ==>
        img[i, j] == (if InCircle(centerX, centerY, radius, i, j) && j - centerY < dy then c else old(img[i, j]))
    {
      var dx := -radius;
      while dx <= radius
        invariant -radius <= dx <= radius + 1
        invariant forall i, j :: InBounds(img, i, j) ==>
          img[i, j] == (if (InCircle(centerX, centerY, radius, i, j) && j - centerY < dy)
                           || (j - centerY == dy && -radius <= i - centerX < dx && InDisk(i - centerX, dy, radius))
                        then c else old(img[i, j]))
      {
        if InDisk(dx, dy, radius) {
          Set(img, centerX + dx, centerY + dy, c);
        }
        dx := dx + 1;
      }
      dy := dy + 1;
    }
  }

  method DrawDiamond(img: array2<RGBA>, x: int, y: int, size: int, c: RGBA)
    modifies img
    ensures forall i, j :: InBounds(img, i, j) ==>
      img[i, j] == (if InDiamond(x, y, size, i, j) then c else old(img[i, j]))
  {
    var halfSize := Quot(size, 2);
    var centerX := x + halfSize;
    var centerY := y + halfSize;
    var dy := 0;
    while dy < size
      invariant 0 <= dy && (dy <= size || dy == 0)
      invariant forall i, j :: InBounds(img, i, j) ==>
        img[i, j] == (if InDiamond(x, y, size, i, j) && j - y < dy then c else old(img[i, j]))
    {
      var width := size - Abs(dy - halfSize) * 2;
      var startX := centerX - Quot(width, 2);
      HorizontalRun(img, startX, width, centerY + (dy - halfSize), c);
      dy := dy + 1;
    }
  }

  method DrawTriangle(img: array2<RGBA>, x: int, y: int, size: int, orientation: int, c: RGBA)
    modifies img
    ensures forall i, j :: InBounds(img, i, j) ==>
      img[i, j] == (if InTriangle(orientation, x, y, size, i, j) then c else old(img[i, j]))
  {
    if orientation == 0 {
      var dy := 0;
      while dy < size
        invariant 0 <= dy && (dy <= size || dy == 0)
        invariant forall i, j :: InBounds(img, i, j) ==>
          img[i, j] == (if InTriangle(0, x, y, size, i, j) && y + size - 1 - j < dy then c else old(img[i, j]))
      {
        var width := size - dy * 2;
        var startX := x + dy;
        HorizontalRun(img, startX, width, y + size - dy - 1, c);
        dy := dy + 1;
      }
    } else if orientation == 1 {
      var dx := 0;
      while dx < size
        invariant 0 <= dx && (dx <= size || dx == 0)
        invariant forall i, j :: InBounds(img, i, j) ==>
          img[i, j] == (if InTriangle(1, x, y, size, i, j) && i - x < dx then c else old(img[i, j]))
      {
        var height := size - dx * 2;
        var startY := y + dx;
        VerticalRun(img, x + dx, startY, height, c);
        dx := dx + 1;
      }
    } else if orientation == 2 {
      var dy := 0;
      while dy < size
        invariant 0 <= dy && (dy <= size || dy == 0)
        invariant forall i, j :: InBounds(img, i, j) ==>
          img[i, j] == (if InTriangle(2, x, y, size, i, j) && j - y < dy then c else old(img[i, j]))
      {
        var width := size - dy * 2;
        var startX := x + dy;
        HorizontalRun(img, startX, width, y + dy, c);
        dy := dy + 1;
      }
    } else if orientation == 3 {
      var dx := 0;
      while dx < size
        invariant 0 <= dx && (dx <= size || dx == 0)
        invariant forall i, j :: InBounds(img, i, j) ==>
          img[i, j] == (if InTriangle(3, x, y, size, i, j) && x + size - 1 - i < dx then c else old(img[i, j]))
      {
        var height := size - dx * 2;
        var startY := y + dx;
        VerticalRun(img, x + size - dx - 1, startY, height, c);
        dx := dx + 1;
      }
    }
  }

  /** drawShape: anchors the cell at (margin + x*cellSize, margin + y*cellSize) and dispatches
      shape types 0..6 to square, circle, diamond and the up/right/down/left triangles; any
      other shape type paints nothing. */
  method DrawShape(img: array2<RGBA>, x: int, y: int, cellSize: int, margin: int, c: RGBA, shapeType: int)
    modifies img
    ensures forall i, j :: InBounds(img, i, j) ==>
      img[i, j] == (if InShape(shapeType, margin + x * cellSize, margin + y * cellSize, cellSize, i, j)
                    then c else old(img[i, j]))
  {
    var startX := margin + x * cellSize;
    var startY := margin + y * cellSize;
    if shapeType == 0 {
      DrawRect(img, startX, startY, cellSize, cellSize, c);
    } else if shapeType == 1 {
      DrawCircle(img, startX + Quot(cellSize, 2), startY + Quot(cellSize, 2), Quot(cellSize, 2), c);
    } else if shapeType == 2 {
      DrawDiamond(img, startX, startY, cellSize, c);
    } else if shapeType == 3 {
      DrawTriangle(img, startX, startY, cellSize, 0, c);
    } else if shapeType == 4 {
      DrawTriangle(img, startX, startY, cellSize, 1, c);
    } else if shapeType == 5 {
      DrawTriangle(img, startX, startY, cellSize, 2, c);
    } else if shapeType == 6 {
      DrawTriangle(img, startX, startY, cellSize, 3, c);
    }
  }
}

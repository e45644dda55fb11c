/** The renderer: the configuration New builds and the integer skeleton of Make, from the
    64-bit seed to the finished pixel buffer. */
module Identicon {
  import opened GoInt
  import opened Pattern
  import opened Raster

  /** The IdentIcon fields that New sets and Make reads. */
  datatype IdentIcon = IdentIcon(sqSize: int, rows: int, cols: int, maxX: int, maxY: int)
  {
    /** What Make relies on: at least one column (it divides by cols) and a square canvas. */
    predicate Valid()
    {
      rows >= 0 && cols >= 1 && maxX == maxY
    }
  }

  /** New: a square canvas of side `size` divided into a rows x cols grid; sqSize is the largest
      square side of which max(rows, cols) fit into `size`. */
  function New(size: int, rows: int, cols: int): (icon: IdentIcon)
    requires rows >= 0 && cols >= 0 && Max(rows, cols) >= 1
    ensures icon.rows == rows && icon.cols == cols
    ensures icon.Valid() <==> cols >= 1
    ensures icon.maxX == size && icon.maxY == size
    ensures size >= 0 ==> icon.sqSize * Max(rows, cols) <= size < (icon.sqSize + 1) * Max(rows, cols)
  {
    IdentIcon(Quot(size, Max(rows, cols)), rows, cols, size, size)
  }

  /** The fixed light neutral background. */
  const Background := RGBA(240, 240, 240, 255)

  /** Side of one grid cell: the width left between the margins, divided by the column count. */
  function CellSize(icon: IdentIcon, margin: int): (cs: int)
    requires icon.Valid() && 0 <= 2 * margin <= icon.maxX
    ensures 0 <= cs && cs * icon.cols <= icon.maxX - 2 * margin
  {
    Quot(icon.maxX - 2 * margin, icon.cols)
  }

  /** Everything Make fixes before its drawing loops: the seed (for the pattern), the grid,
      the shape kind seed % 7 used for every cell, the cell side and the margin. */
  datatype Layout = Layout(seed: uint64, rows: nat, cols: nat, kind: int, cellSize: int, margin: int)

  function LayoutOf(icon: IdentIcon, seed: uint64, margin: int): (l: Layout)
    requires icon.Valid() && 0 <= 2 * margin <= icon.maxX
    ensures 0 <= l.kind < 7 && 0 <= l.cellSize && l.cols * l.cellSize <= icon.maxX - 2 * margin
  {
    Layout(seed, icon.rows, icon.cols, seed % 7, CellSize(icon, margin), margin)
  }

  /** Pixel (i, j) is painted by the shape of grid cell (cy, cx): the cell is set in the
      pattern and the pixel is in the footprint of the layout's shape kind anchored at that cell. */
  ghost predicate CellPaints(l: Layout, cy: nat, cx: nat, i: int, j: int)
    requires cx < l.cols
  {
    PatternCell(l.seed, l.cols, cy, cx)
      && InShape(l.kind, l.margin + cx * l.cellSize, l.margin + cy * l.cellSize, l.cellSize, i, j)
  }

  /** Some cell of row cy with column below n paints (i, j). */
  ghost predicate PaintedInRow(l: Layout, cy: nat, n: nat, i: int, j: int)
    requires n <= l.cols
  {
    n > 0 && (PaintedInRow(l, cy, n - 1, i, j) || CellPaints(l, cy, n - 1, i, j))
  }

  /** Some cell of a row below m paints (i, j). */
  ghost predicate PaintedBeforeRow(l: Layout, m: nat, i: int, j: int)
  {
    m > 0 && (PaintedBeforeRow(l, m - 1, i, j) || PaintedInRow(l, m - 1, l.cols, i, j))
  }

  /** Pixel (i, j) of the finished identicon is foreground: some cell of the grid paints it. */
  ghost predicate Covered(icon: IdentIcon, seed: uint64, margin: int, i: int, j: int)
    requires icon.Valid() && 0 <= 2 * margin <= icon.maxX
  {
    var l := LayoutOf(icon, seed, margin);
    exists cy: nat, cx: nat :: cy < l.rows && cx < l.cols && CellPaints(l, cy, cx, i, j)
  }

  lemma {:induction false} PaintedInRowIsSomeCell(l: Layout, cy: nat, n: nat, i: int, j: int)
    requires n <= l.cols
    ensures PaintedInRow(l, cy, n, i, j) <==> exists cx: nat :: cx < n && CellPaints(l, cy, cx, i, j)
  {
    if n > 0 {
      PaintedInRowIsSomeCell(l, cy, n - 1, i, j);
    }
  }

  lemma {:induction false} PaintedBeforeRowIsSomeCell(l: Layout, m: nat, i: int, j: int)
    ensures PaintedBeforeRow(l, m, i, j) <==>
            exists cy: nat, cx: nat :: cy < m && cx < l.cols && CellPaints(l, cy, cx, i, j)
  {
    if m > 0 {
      PaintedBeforeRowIsSomeCell(l, m - 1, i, j);
      PaintedInRowIsSomeCell(l, m - 1, l.cols, i, j);
    }
  }

  /** Make, from the seed on: a maxX x maxY buffer filled with the background, then the shape
      of kind seed % 7 drawn in fgColor at every set cell of the symmetric pattern, scanning the
      grid row by row. */
  method Make(icon: IdentIcon, seed: uint64, fgColor: RGBA, margin: int) returns (img: array2<RGBA>)
    requires icon.Valid() && 0 <= 2 * margin <= icon.maxX
    ensures fresh(img)
    ensures img.Length0 == icon.maxX && img.Length1 == icon.maxY
    ensures forall i, j :: InBounds(img, i, j) ==>
      img[i, j] == (if Covered(icon, seed, margin, i, j) then fgColor else Background)
    ensures forall i, j :: InBounds(img, i, j) ==> img[i, j] == Background || img[i, j] == fgColor
  {
    img := new RGBA[icon.maxX, icon.maxY]((_, _) => Background);

    var innerSize := icon.maxX - 2 * margin;
    var cellSize := Quot(innerSize, icon.cols);

    var pattern := GenerateSymmetricPattern(seed, icon.rows, icon.cols);
    var shapeType := seed % 7;

    ghost var l := Layout(seed, icon.rows, icon.cols, shapeType, cellSize, margin);
    assert l.seed == seed && l.rows == icon.rows && l.cols == icon.cols;
    assert l.kind == shapeType && l.cellSize == cellSize && l.margin == margin;

    var y := 0;
    while y < icon.rows
      modifies img
      invariant 0 <= y <= icon.rows
      invariant forall i, j :: InBounds(img, i, j) ==>
        img[i, j] == (if PaintedBeforeRow(l, y, i, j) then fgColor else Background)
    {
      var x := 0;
      while x < icon.cols
        modifies img
        invariant 0 <= x <= icon.cols
        invariant forall i, j :: InBounds(img, i, j) ==>
          img[i, j] == (if PaintedBeforeRow(l, y, i, j) || PaintedInRow(l, y, x, i, j) then fgColor else Background)
      {
        assert pattern[y, x] == PatternCell(seed, icon.cols, y, x);
        if pattern[y, x] {
          DrawShape(img, x, y, cellSize, margin, fgColor, shapeType);
          forall i, j | InBounds(img, i, j)
            ensures img[i, j] == (if PaintedBeforeRow(l, y, i, j) || PaintedInRow(l, y, x + 1, i, j) then fgColor else Background)
          {
            assert CellPaints(l, y, x, i, j) == InShape(shapeType, margin + x * cellSize, margin + y * cellSize, cellSize, i, j);
          }
        } else {
          forall i, j | InBounds(img, i, j)
            ensures img[i, j] == (if PaintedBeforeRow(l, y, i, j) || PaintedInRow(l, y, x + 1, i, j) then fgColor else Background)
          {
            assert !CellPaints(l, y, x, i, j);
          }
        }
        x := x + 1;
      }
      y := y + 1;
    }

    assert l == LayoutOf(icon, seed, margin);
    forall i, j | InBounds(img, i, j)
      ensures img[i, j] == (if Covered(icon, seed, margin, i, j) then fgColor else Background)
    {
      PaintedBeforeRowIsSomeCell(l, icon.rows, i, j);
    }
  }

  /** Every set cell is drawn with the one shape kind seed % 7: each pixel of that shape,
      anchored at the cell, is foreground. */
  lemma ActiveCellIsPainted(icon: IdentIcon, seed: uint64, margin: int, cy: nat, cx: nat, i: int, j: int)
    requires icon.Valid() && 0 <= 2 * margin <= icon.maxX && cy < icon.rows && cx < icon.cols
    requires PatternCell(seed, icon.cols, cy, cx)
    requires InShape(seed % 7, margin + cx * CellSize(icon, margin), margin + cy * CellSize(icon, margin),
                     CellSize(icon, margin), i, j)
    ensures Covered(icon, seed, margin, i, j)
  {
    assert CellPaints(LayoutOf(icon, seed, margin), cy, cx, i, j);
  }

  /** A pattern with no set cell leaves the whole image background. */
  lemma BlankPatternIsBackground(icon: IdentIcon, seed: uint64, margin: int, i: int, j: int)
    requires icon.Valid() && 0 <= 2 * margin <= icon.maxX
    requires forall cy: nat, cx: nat :: cy < icon.rows && cx < icon.cols ==> !PatternCell(seed, icon.cols, cy, cx)
    ensures !Covered(icon, seed, margin, i, j)
  {
  }

  /** The all-zero seed draws nothing. */
  lemma ZeroSeedIsBackground(icon: IdentIcon, margin: int, i: int, j: int)
    requires icon.Valid() && 0 <= 2 * margin <= icon.maxX
    ensures !Covered(icon, 0, margin, i, j)
  {
  }

  lemma MulMonotone(a: int, b: int, c: int)
    requires 0 <= a <= b && 0 <= c
    ensures 0 <= a * c <= b * c
  {
  }

  /** The cell in column cx < cols ends no later than the right margin. */
  lemma CellEndsInsideMargin(icon: IdentIcon, margin: int, cx: nat)
    requires icon.Valid() && 0 <= 2 * margin <= icon.maxX && cx < icon.cols
    ensures margin <= margin + cx * CellSize(icon, margin)
    ensures margin + cx * CellSize(icon, margin) + CellSize(icon, margin) <= icon.maxX - margin
  {
    var cs := CellSize(icon, margin);
    MulMonotone(cx + 1, icon.cols, cs);
    assert (cx + 1) * cs == cx * cs + cs;
  }

  /** Foreground never lands in the left or right margin: the cols cells of a row span at most
      the inner width, and only the circle can reach the pixel column maxX - margin. Vertically
      the grid starts at the top margin and, when rows <= cols, ends at the bottom margin. */
  lemma ForegroundStaysInsideMargins(icon: IdentIcon, seed: uint64, margin: int, i: int, j: int)
    requires icon.Valid() && 0 <= 2 * margin <= icon.maxX
    requires Covered(icon, seed, margin, i, j)
    ensures margin <= i <= icon.maxX - margin && margin <= j
    ensures seed % 7 != 1 ==> i < icon.maxX - margin
    ensures icon.rows <= icon.cols ==> j <= icon.maxY - margin
  {
    var l := LayoutOf(icon, seed, margin);
    var cy: nat, cx: nat :| cy < l.rows && cx < l.cols && CellPaints(l, cy, cx, i, j);
    var cs, kind := l.cellSize, l.kind;
    var startX, startY := margin + cx * cs, margin + cy * cs;
    assert InShape(kind, startX, startY, cs, i, j);
    CellEndsInsideMargin(icon, margin, cx);
    assert startY >= margin by {
      MulMonotone(0, cy, cs);
    }
    if kind == 1 {
      CircleCellExtent(startX, startY, cs, i, j);
    } else {
      ShapeStaysInCell(kind, startX, startY, cs, i, j);
    }
    if icon.rows <= icon.cols {
      CellEndsInsideMargin(icon, margin, cy);
    }
  }
}

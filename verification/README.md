# Identicon renderer: a verified model of its integer core

This project models the integer part of the `identicon` Go package (`identicon.go`):
everything downstream of the 64-bit FNV-1a hash except the colour arithmetic. It covers
three pieces:

- **The symmetric pattern generator** (`generateSymmetricPattern`). One right-shifting `bits`
  stream is consumed least-significant bit first across the whole row/column scan of the
  left half of a `rows × cols` grid, and it is never reset between rows. Each left-half cell
  is copied to its mirror position in the right half.
- **The shape rasteriser** (`drawShape`, `drawRect`, `drawCircle`, `drawDiamond`,
  `drawTriangle`, `abs`). These are nested integer loops that write one colour into an RGBA
  buffer through `image.RGBA.Set`, which ignores points outside the image.
- **The integer skeleton of `Make`** and the configuration built by `New`. `Make` fills the
  canvas with the background colour `(240, 240, 240, 255)`. It computes
  `cellSize = (maxX - 2·margin) / cols` and draws the shape of kind `seed % 7` at every set
  cell of the pattern.

Layout:

- `go_int.dfy` (module `GoInt`): Go's `uint8` and `uint64` types and Go's truncating integer
  division (`Quot`).
- `pattern.dfy` (module `Pattern`): the pattern generator.
  - It is a method over an `array2<bool>`.
  - It is proved against `PatternCell`, a reference definition in terms of seed bit
    positions.
- `raster.dfy` (module `Raster`): the pixel buffer and the drawing routines.
  - The buffer is an `array2<RGBA>` indexed `img[x, y]`.
  - Each drawing routine is a method whose postcondition gives the new colour of every
    pixel. A pixel inside the shape's footprint predicate becomes the drawing colour. Every
    other pixel keeps its old colour.
  - Lemmas state the geometry of each footprint.
- `identicon.dfy` (module `Identicon`): the `IdentIcon` configuration, `New`, and `Make`.
  - `Make` is proved to produce exactly the image that `Covered` describes: a pixel is
    foreground if and only if some set cell's shape covers it.

The inner loops of the drawing routines are factored into `HorizontalRun` and `VerticalRun`.
These run the same iterations as the loops they replace. Go's unsigned `bits & 1 == 1` and
`bits >>= 1` are written as `bits % 2 == 1` and `bits / 2`, which agree on non-negative
values. Go's `/` on `int` truncates toward zero and is modelled by `GoInt.Quot`.

Two facts about `identicon.go` shape the model:

- Shape kind 3 draws its full-width row at the bottom of the cell (`y+size-dy-1` at `dy = 0`,
  identicon.go:187), so it points up. `Raster.TriangleOrientations` states this.
- Cells use `innerSize / cols` (identicon.go:66). `sqSize = size / max(rows, cols)`
  (identicon.go:26) is computed and never read.

## Model

| member | source | states |
|---|---|---|
| GoInt.Quot | identicon.go:66 | Go integer division with a positive divisor: the quotient truncates toward zero, bracketing the dividend from below (non-negative) or above (negative) |
| GoInt.Max | identicon.go:26 | the builtin `max` is an upper bound of both arguments and equals one of them |
| Pattern.MiddleCol | identicon.go:91-94 | the left-half width is half the column count rounded up: `cols <= 2·m <= cols + 1` |
| Pattern.ShiftIsDiv | identicon.go:97-101 | after k executions of `bits >>= 1` the stream equals `seed / 2^k`, so its low bit is seed bit k |
| Pattern.BitBeyond64 | identicon.go:97-101 | a 64-bit seed has no bit set at position 64 or above, so the exhausted stream yields false |
| Pattern.GenerateSymmetricPattern | identicon.go:84-111 | the result is exactly rows × cols; every cell equals the reference `PatternCell` (left cell x < middleCol is seed bit y·middleCol + x, right cells repeat their mirror); every row is mirror-symmetric |
| Pattern.PatternMirror | identicon.go:103-106 | `pattern[y][x] == pattern[y][cols-1-x]` for every x < cols, the odd middle column included |
| Pattern.PatternLeftIsSeedBit | identicon.go:98-100 | a left-half cell (x < middleCol) is bit y·middleCol + x of the seed |
| Pattern.PatternBeyondSeedIsClear | identicon.go:97-106 | a left-half cell whose bit index is 64 or more is false, and so is its mirror cell |
| Pattern.PatternRowBeyondSeedIsBlank | identicon.go:97-108 | every cell of a row whose first bit index y·middleCol is 64 or more is false |
| Pattern.PatternOfZeroIsBlank | identicon.go:97-100 | the zero seed sets no cell |
| Raster.Abs | identicon.go:246-251 | the result is non-negative and equals x or -x |
| Raster.Set | identicon.go:147 | `img.Set` writes the one pixel (x, y) when it is inside the image and nothing otherwise; no other pixel changes |
| Raster.HorizontalRun | identicon.go:173-175 | an inner drawing loop paints exactly the in-bounds pixels (x0+d, row) for 0 <= d < len (none when len <= 0); all others unchanged |
| Raster.VerticalRun | identicon.go:194-196 | an inner drawing loop paints exactly the in-bounds pixels (col, y0+d) for 0 <= d < len; all others unchanged |
| Raster.DrawRect | identicon.go:144-150 | in-bounds pixels of `[x, x+w) × [y, y+h)` become the colour; every other pixel is unchanged |
| Raster.DrawCircle | identicon.go:153-161 | exactly the in-bounds pixels at offsets dx, dy in [-r, r] with `dx²+dy² <= r²` become the colour; every other pixel is unchanged |
| Raster.DrawDiamond | identicon.go:164-177 | row y+dy (0 <= dy < size) gets the run of width `size - 2·abs(dy - size/2)` starting half that width left of column x + size/2; every other pixel is unchanged |
| Raster.DrawTriangle | identicon.go:180-215 | orientations 0-3 paint exactly the up/right/down/left triangle footprints (sweep line k holds size - 2k pixels starting k in from the cell edge); any other orientation paints nothing; every other pixel is unchanged |
| Raster.DrawShape | identicon.go:114-141 | anchors the cell at (margin + x·cellSize, margin + y·cellSize) and paints exactly the footprint of shape 0..6 (square, circle of radius cellSize/2 at the cell centre, diamond, triangles up/right/down/left); any other shape type leaves the buffer unchanged |
| Raster.CircleIsDisk | identicon.go:153-161 | for a non-negative radius the loop bounds cut nothing off: the circle is exactly the pixels with `dx²+dy² <= r²` |
| Raster.CircleOfNegativeRadiusIsEmpty | identicon.go:154-155 | a negative radius paints nothing |
| Raster.CircleCellExtent | identicon.go:122-124 | a cell's circle stays within [start, start + cellSize] on both axes (one pixel beyond the cell), and inside the cell when cellSize is odd |
| Raster.CircleOverhangsEvenCell | identicon.go:124 | with an even cellSize >= 2 the circle paints the pixel just right of the cell on its middle row |
| Raster.DiamondIsL1Ball | identicon.go:164-177 | for size >= 1 the diamond is exactly the pixels with `abs(2(i-x) - (size-1)) + 2·abs(j - y - size/2) <= size - 1` |
| Raster.ShapeStaysInCell | identicon.go:118-139 | square, diamond and all four triangles paint only pixels of the cell square `[x, x+size) × [y, y+size)` |
| Raster.PaintedLinesHavePositiveWidth | identicon.go:169-213 | a diamond row or triangle sweep line whose computed width `size - 2k` is <= 0 paints nothing |
| Raster.TriangleOrientations | identicon.go:180-215 | the up triangle's full-width base is its bottom row and its columns run down to it; down is up flipped vertically, left is right flipped horizontally, right is down transposed |
| Identicon.New | identicon.go:24-33 | the configuration has a size × size canvas, the given grid (renderable by Make exactly when cols >= 1), and sqSize the largest side of which max(rows, cols) fit in size |
| Identicon.CellSize | identicon.go:63-66 | the cell side is non-negative and cols cells fit within the width between the margins |
| Identicon.LayoutOf | identicon.go:64-75 | what Make fixes before drawing: the shape kind `seed % 7` is one of the seven kinds 0..6, and cols cells of the computed side fit within the width between the margins |
| Identicon.Make | identicon.go:57-80 | the image is maxX × maxY; each pixel is fgColor exactly when some set pattern cell's shape of kind seed % 7 covers it, and background otherwise; hence every pixel is one of the two colours |
| Identicon.PaintedInRowIsSomeCell | identicon.go:73-77 | the inner grid loop's coverage after n columns is "some cell of the row with column < n paints the pixel" |
| Identicon.PaintedBeforeRowIsSomeCell | identicon.go:72-78 | the outer grid loop's coverage after m rows is "some cell in a row < m paints the pixel" |
| Identicon.ActiveCellIsPainted | identicon.go:72-78 | every set cell is drawn with the single shape kind seed % 7: each pixel of that shape at the cell is foreground |
| Identicon.BlankPatternIsBackground | identicon.go:57-78 | if no pattern cell is set, no pixel is foreground, so the image is entirely background |
| Identicon.ZeroSeedIsBackground | identicon.go:69-78 | the zero seed yields an all-background image |
| Identicon.CellEndsInsideMargin | identicon.go:64-66 | the cell in any column < cols starts after the left margin and ends no later than the right margin |
| Identicon.ForegroundStaysInsideMargins | identicon.go:63-78 | foreground pixels lie between the left and right margins (strictly inside for every shape but the circle) and below the top margin; when rows <= cols, also above the bottom margin |

## Left out

- The FNV-1a hash (`hash/fnv`, identicon.go:29, 37-41). The seed is a `uint64` parameter of `Make`. The reused `hash.Hash64` field is shared mutable state. It only matters for concurrent calls, which are not modelled.
- HSV colour derivation and `hsvToRgb` (identicon.go:44-54, 218-244). This is `float64` arithmetic truncated to `uint8`. The foreground colour is an opaque parameter and may equal the background.
- The margin `int(float64(maxX) * 0.1)` (identicon.go:64). This is a floating-point computation. `margin` is a parameter with `0 <= 2·margin <= maxX`.
- `image.NewRGBA`, `draw.Draw` and `image.Uniform` (identicon.go:60-61). These library calls are replaced by allocating a `maxX × maxY` buffer already filled with the background. A negative size, which `image.Rect` would canonicalise, is outside the model.
- `sqSize` (identicon.go:26) is computed by `New` but never read by `Make`.
- Grids the source cannot render. `Identicon.New` requires `rows >= 0`, `cols >= 0` and not both zero, because with both zero it divides by zero at identicon.go:26. A configuration with `cols = 0` is built but is not `Valid`, and `Make` requires `Valid`, because it divides by `cols` at identicon.go:66. Negative counts are not modelled, because `make` panics on a negative length at identicon.go:85 and 87. Zero rows are modelled and give an all-background image.
- Go's `int` is 64 bits wide. The model uses unbounded integers, so 64-bit overflow is not modelled. The first product to overflow is `radius*radius` at identicon.go:156, once the cell size exceeds about 2^32.5.
- identicon_test.go is not part of this model. It only writes PNG files and asserts nothing about the pixels.

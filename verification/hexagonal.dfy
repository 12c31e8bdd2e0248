/** `HexagonalRendererEngine`: staggered hexagonal cells. Along the stagger
    axis every odd column (X) or odd row (Y) is shifted by half a tile, and
    neighbouring columns (rows) overlap by a quarter tile. */
module Hexagonal {
  import opened Geometry
  import opened Canvas
  import opened Tiled

  /** `GetFinalImageSize`; an unknown stagger axis gives the zero rectangle. */
  function FinalImageSize(g: Grid): Rect
  {
    match g.staggerAxis
    case AxisX => MakeRect(0, 0, g.width * g.tileWidth, g.height * g.tileHeight + GoDiv(g.tileHeight, 2))
    case AxisY => MakeRect(0, 0, g.width * g.tileWidth + GoDiv(g.tileWidth, 2), GoDiv((g.height + 1) * g.tileHeight * 3, 4))
    case OtherAxis(_) => ZeroRect()
  }

  /** Go's `x % 2 == 1`: false for negative odd numbers. */
  predicate Odd(x: int) { GoMod(x, 2) == 1 }

  /** `GetTilePosition` as written: on the Y axis the column stride is the
      tile HEIGHT. */
  function TilePositionAsWritten(g: Grid, x: int, y: int): Rect
  {
    match g.staggerAxis
    case AxisX =>
      var offsetWidth := GoDiv(g.tileWidth * 3, 4);
      var yBump := if Odd(x) then GoDiv(g.tileHeight, 2) else 0;
      MakeRect(x * offsetWidth, y * g.tileHeight + yBump, x * offsetWidth + g.tileWidth, (y + 2) * g.tileHeight + yBump)
    case AxisY =>
      var offsetHeight := GoDiv(g.tileHeight * 3, 4);
      var xBump := if Odd(y) then GoDiv(g.tileWidth, 2) else 0;
      MakeRect(x * g.tileHeight + xBump, y * offsetHeight, (x + 2) * g.tileWidth + xBump, (y + 1) * offsetHeight + g.tileHeight)
    case OtherAxis(_) => ZeroRect()
  }

  /** `GetTilePosition` with the column stride on the Y axis being the tile
      width, as the right edge `(x+2)*TileWidth` and the final image width
      `Width*TileWidth + TileWidth/2` assume. The renderer keeps the position
      as written; the lemmas marked "corrected" are about this one. */
  function TilePosition(g: Grid, x: int, y: int): Rect
  {
    match g.staggerAxis
    case AxisX => TilePositionAsWritten(g, x, y)
    case AxisY =>
      var offsetHeight := GoDiv(g.tileHeight * 3, 4);
      var xBump := if Odd(y) then GoDiv(g.tileWidth, 2) else 0;
      MakeRect(x * g.tileWidth + xBump, y * offsetHeight, (x + 2) * g.tileWidth + xBump, (y + 1) * offsetHeight + g.tileHeight)
    case OtherAxis(_) => ZeroRect()
  }

  /** The correction changes nothing but Y-staggered maps whose tiles are not
      as wide as they are high. */
  lemma CorrectionScope(g: Grid, x: int, y: int)
    ensures TilePosition(g, x, y) == TilePositionAsWritten(g, x, y) <==>
              g.staggerAxis != AxisY || g.tileWidth == g.tileHeight || x == 0
  {
    if g.staggerAxis == AxisY && g.tileWidth != g.tileHeight && x != 0 {
      CorrectionMovesColumn(g, x, y);
    }
  }

  /** On a Y-staggered map with tiles not as wide as high, every column but
      the first moves. */
  lemma CorrectionMovesColumn(g: Grid, x: int, y: int)
    requires g.staggerAxis == AxisY && g.tileWidth != g.tileHeight && x != 0
    ensures TilePosition(g, x, y) != TilePositionAsWritten(g, x, y)
  {
    var xBump := if Odd(y) then GoDiv(g.tileWidth, 2) else 0;
    var a, c, d := x * g.tileHeight + xBump, x * g.tileWidth + xBump, (x + 2) * g.tileWidth + xBump;
    assert a != c by {
      StrideDiffers(x, g.tileWidth, g.tileHeight);
    }
    var offsetHeight := GoDiv(g.tileHeight * 3, 4);
    var y0, y1 := y * offsetHeight, (y + 1) * offsetHeight + g.tileHeight;
    assert TilePosition(g, x, y).minX + TilePosition(g, x, y).maxX == c + d by {
      assert TilePosition(g, x, y) == MakeRect(c, y0, d, y1);
      MakeRectSpan(c, y0, d, y1);
    }
    assert TilePositionAsWritten(g, x, y).minX + TilePositionAsWritten(g, x, y).maxX == a + d by {
      assert TilePositionAsWritten(g, x, y) == MakeRect(a, y0, d, y1);
      MakeRectSpan(a, y0, d, y1);
    }
  }

  /** Different strides put every column but the first at different places. */
  lemma StrideDiffers(x: int, tw: int, th: int)
    requires x != 0 && tw != th
    ensures x * th != x * tw
  {
    assert x * th - x * tw == x * (th - tw);
  }

  /** The transforms `RotateTileImage` applies: the horizontal flip, the
      vertical flip, then the diagonal flip as a 90 degree turn followed by a
      horizontal flip. */
  function Steps(hflip: bool, vflip: bool, dflip: bool): seq<Transform>
  {
    (if hflip then [FlipH] else []) + (if vflip then [FlipV] else []) + (if dflip then [Rotate90, FlipH] else [])
  }

  /** `RotateTileImage`. */
  function RotateTileImage(hflip: bool, vflip: bool, dflip: bool, img: Image): Image
  {
    ApplySteps(img, Steps(hflip, vflip, dflip))
  }

  lemma UnflippedKeepsImage(img: Image)
    ensures RotateTileImage(false, false, false, img) == img
  {
  }

  /** Where a pixel of the drawn tile comes from: the diagonal flip of this
      engine mirrors across the anti-diagonal, (x, y) to (w-1-y, h-1-x); the
      horizontal and vertical flips then mirror inside the `w` by `h` source. */
  lemma FlipPixels(hflip: bool, vflip: bool, dflip: bool, w: int, h: int, x: int, y: int)
    ensures StepsDims(Steps(hflip, vflip, dflip), w, h) == if dflip then (h, w) else (w, h)
    ensures StepsBack(Steps(hflip, vflip, dflip), w, h, x, y) ==
              (var p := if dflip then (w - 1 - y, h - 1 - x) else (x, y);
               (if hflip then w - 1 - p.0 else p.0, if vflip then h - 1 - p.1 else p.1))
  {
    var hs: seq<Transform> := if hflip then [FlipH] else [];
    var vs: seq<Transform> := if vflip then [FlipV] else [];
    var ds: seq<Transform> := if dflip then [Rotate90, FlipH] else [];
    assert Steps(hflip, vflip, dflip) == hs + vs + ds;
    assert [Rotate90, FlipH][1..] == [FlipH];
    assert [FlipH][1..] == [] && [FlipV][1..] == [];
    StepsAppend(hs + vs, ds, w, h, x, y);
    var p := StepsBack(ds, w, h, x, y);
    StepsAppend(hs, vs, w, h, p.0, p.1);
  }

  /** The area a tile of the map's tile size covers when drawn at `r`,
      before the clip to the final image. */
  function TileArea(g: Grid, r: Rect): Rect
  {
    Footprint(r, g.tileWidth, g.tileHeight)
  }

  /** As written, two neighbouring cells of a row of a Y-staggered map with
      32 by 16 tiles are drawn over each other: cell (0, 0) covers x in
      [0, 32) and cell (1, 0) covers x in [16, 48). */
  lemma AsWrittenNeighboursOverlap()
    ensures var g := Grid(4, 4, 32, 16, AxisY);
            TileArea(g, TilePositionAsWritten(g, 0, 0)) == Rect(0, 0, 32, 16) &&
            TileArea(g, TilePositionAsWritten(g, 1, 0)) == Rect(16, 0, 48, 16) &&
            !Disjoint(TileArea(g, TilePositionAsWritten(g, 0, 0)), TileArea(g, TilePositionAsWritten(g, 1, 0)))
  {
  }

  /** The drawing origin of a cell of an X-staggered map: columns advance by
      three quarters of a tile, odd columns drop by half a tile. */
  lemma OriginAxisX(g: Grid, x: int, y: int)
    requires g.staggerAxis == AxisX && g.tileWidth >= 0 && g.tileHeight >= 0
    ensures TilePosition(g, x, y).minX == x * GoDiv(g.tileWidth * 3, 4)
    ensures TilePosition(g, x, y).minY == y * g.tileHeight + (if Odd(x) then GoDiv(g.tileHeight, 2) else 0)
  {
    assert (y + 2) * g.tileHeight == y * g.tileHeight + 2 * g.tileHeight;
  }

  /** The drawing origin of a cell of a Y-staggered map: rows advance by
      three quarters of a tile, odd rows shift right by half a tile. */
  lemma OriginAxisY(g: Grid, x: int, y: int)
    requires g.staggerAxis == AxisY && g.tileWidth >= 0 && g.tileHeight >= 0
    ensures TilePosition(g, x, y).minX == x * g.tileWidth + (if Odd(y) then GoDiv(g.tileWidth, 2) else 0)
    ensures TilePosition(g, x, y).minY == y * GoDiv(g.tileHeight * 3, 4)
  {
    assert (x + 2) * g.tileWidth == x * g.tileWidth + 2 * g.tileWidth;
    var oh := GoDiv(g.tileHeight * 3, 4);
    assert (y + 1) * oh == y * oh + oh;
  }

  /** The box of one tile at the cell's drawing origin. */
  function CellBox(g: Grid, x: int, y: int): Rect
  {
    var r := TilePosition(g, x, y);
    Rect(r.minX, r.minY, r.minX + g.tileWidth, r.minY + g.tileHeight)
  }

  /** On a Y-staggered map, distinct cells of one row are drawn side by side
      without overlap. */
  lemma RowCellsDisjoint(g: Grid, x1: int, x2: int, y: int)
    requires g.staggerAxis == AxisY && g.tileWidth > 0 && g.tileHeight > 0
    requires x1 < x2
    ensures Disjoint(TileArea(g, TilePosition(g, x1, y)), TileArea(g, TilePosition(g, x2, y)))
  {
    var r1, r2 := TilePosition(g, x1, y), TilePosition(g, x2, y);
    assert r1.minX + g.tileWidth <= r2.minX by {
      OriginAxisY(g, x1, y);
      OriginAxisY(g, x2, y);
      StrideAdvances(x1, x2, g.tileWidth);
    }
    AreasApart(r1, r2, g.tileWidth, g.tileHeight);
  }

  /** On an X-staggered map, distinct cells of one column are drawn one above
      the other without overlap. */
  lemma ColumnCellsDisjoint(g: Grid, x: int, y1: int, y2: int)
    requires g.staggerAxis == AxisX && g.tileWidth > 0 && g.tileHeight > 0
    requires y1 < y2
    ensures Disjoint(TileArea(g, TilePosition(g, x, y1)), TileArea(g, TilePosition(g, x, y2)))
  {
    var r1, r2 := TilePosition(g, x, y1), TilePosition(g, x, y2);
    assert r1.minY + g.tileHeight <= r2.minY by {
      OriginAxisX(g, x, y1);
      OriginAxisX(g, x, y2);
      StrideAdvances(y1, y2, g.tileHeight);
    }
    AreasApart(r1, r2, g.tileWidth, g.tileHeight);
  }

  /** A later cell along a stride of one tile starts after the earlier one ends. */
  lemma StrideAdvances(i: int, j: int, size: int)
    requires i < j && size >= 0
    ensures i * size + size <= j * size
  {
    MulMonotonic(i + 1, j, size);
  }

  /** Tiles drawn at origins one tile apart, across or down, do not overlap. */
  lemma AreasApart(r1: Rect, r2: Rect, w: int, h: int)
    requires r1.minX + w <= r2.minX || r1.minY + h <= r2.minY
    ensures Disjoint(Footprint(r1, w, h), Footprint(r2, w, h))
  {
    FootprintInCorner(r1, w, h);
    FootprintInCorner(r2, w, h);
    SeparatedBoxes(Footprint(r1, w, h), Rect(r1.minX, r1.minY, r1.minX + w, r1.minY + h),
                   Footprint(r2, w, h), Rect(r2.minX, r2.minY, r2.minX + w, r2.minY + h));
  }

  /** A cell `i` of `n` advancing by `stride`, at most `size` apart, fits with
      its `size` in `n` sizes. */
  lemma StrideFits(i: int, n: int, stride: int, size: int)
    requires 0 <= i < n && 0 <= stride <= size
    ensures 0 <= i * stride && i * stride + size <= n * size
  {
    MulMonotonic(0, i, stride);
    MulMonotonic(stride, size, i);
    MulMonotonic(i + 1, n, size);
  }

  /** Every cell of an X-staggered map is drawn inside the final image, so
      the clip to the image's bounds removes none of its pixels. */
  lemma AxisXInsideImage(g: Grid, x: int, y: int)
    requires g.staggerAxis == AxisX && g.tileWidth >= 0 && g.tileHeight >= 0
    requires 0 <= x < g.width && 0 <= y < g.height
    ensures TileArea(g, TilePosition(g, x, y)).Within(FinalImageSize(g))
    ensures forall px, py :: DrawnArea(FinalImageSize(g), TilePosition(g, x, y), g.tileWidth, g.tileHeight).Contains(px, py) <==>
                             TileArea(g, TilePosition(g, x, y)).Contains(px, py)
  {
    OriginAxisX(g, x, y);
    assert CellBox(g, x, y).Within(FinalImageSize(g)) by {
      StrideFits(x, g.width, GoDiv(g.tileWidth * 3, 4), g.tileWidth);
      StrideFits(y, g.height, g.tileHeight, g.tileHeight);
      MulMonotonic(0, g.height, g.tileHeight);
    }
    FootprintInCorner(TilePosition(g, x, y), g.tileWidth, g.tileHeight);
    WithinTrans(TileArea(g, TilePosition(g, x, y)), CellBox(g, x, y), FinalImageSize(g));
    NothingClipped(FinalImageSize(g), TilePosition(g, x, y), g.tileWidth, g.tileHeight);
  }

  /** Rows advancing by three quarters of a tile fit in the final image height. */
  lemma RowsFit(y: int, h: int, th: int)
    requires 0 <= y < h && th >= 0
    ensures 0 <= y * GoDiv(th * 3, 4)
    ensures y * GoDiv(th * 3, 4) + th <= GoDiv((h + 1) * th * 3, 4)
  {
    var oh := GoDiv(th * 3, 4);
    assert 0 <= oh && 4 * oh <= 3 * th;
    MulMonotonic(0, y, oh);
    ScaledRows(y, h, oh, th);
    assert 0 <= (h + 1) * th * 3 by {
      MulMonotonic(0, h + 1, th);
    }
    QuarterBound(y * oh + th, (h + 1) * th * 3);
  }

  /** The arithmetic of `RowsFit`, on plain integers. */
  lemma ScaledRows(y: int, h: int, oh: int, th: int)
    requires 0 <= y < h && 0 <= oh && 4 * oh <= 3 * th
    ensures 4 * (y * oh + th) <= (h + 1) * th * 3
  {
    var p := y * oh;
    assert 4 * p == y * (4 * oh);
    MulMonotonic(4 * oh, 3 * th, y);
    assert y * (3 * th) == 3 * (y * th);
    MulMonotonic(y, h - 1, th);
    assert (h + 1) * th * 3 == 3 * ((h - 1) * th) + 6 * th;
  }

  /** A number whose fourfold is at most `n` is at most a quarter of `n`. */
  lemma QuarterBound(k: int, n: int)
    requires 0 <= n && 4 * k <= n
    ensures k <= GoDiv(n, 4)
  {
  }

  /** Every cell of a Y-staggered map is drawn inside the final image, so
      the clip to the image's bounds removes none of its pixels. */
  lemma AxisYInsideImage(g: Grid, x: int, y: int)
    requires g.staggerAxis == AxisY && g.tileWidth >= 0 && g.tileHeight >= 0
    requires 0 <= x < g.width && 0 <= y < g.height
    ensures TileArea(g, TilePosition(g, x, y)).Within(FinalImageSize(g))
    ensures forall px, py :: DrawnArea(FinalImageSize(g), TilePosition(g, x, y), g.tileWidth, g.tileHeight).Contains(px, py) <==>
                             TileArea(g, TilePosition(g, x, y)).Contains(px, py)
  {
    OriginAxisY(g, x, y);
    assert CellBox(g, x, y).Within(FinalImageSize(g)) by {
      StrideFits(x, g.width, g.tileWidth, g.tileWidth);
      RowsFit(y, g.height, g.tileHeight);
    }
    FootprintInCorner(TilePosition(g, x, y), g.tileWidth, g.tileHeight);
    WithinTrans(TileArea(g, TilePosition(g, x, y)), CellBox(g, x, y), FinalImageSize(g));
    NothingClipped(FinalImageSize(g), TilePosition(g, x, y), g.tileWidth, g.tileHeight);
  }

  /** As written, the same map's cells run past the final image once the tiles
      are higher than wide: with 16 by 32 tiles on a 2 by 2 map, cell (1, 0)
      starts at x = 32 and ends at 48, beyond the image width 40, and its
      column 40 is clipped away. */
  lemma AsWrittenLeavesImage()
    ensures var g := Grid(2, 2, 16, 32, AxisY);
            FinalImageSize(g) == Rect(0, 0, 40, 72) &&
            TileArea(g, TilePositionAsWritten(g, 1, 0)) == Rect(32, 0, 48, 32) &&
            !TileArea(g, TilePositionAsWritten(g, 1, 0)).Within(FinalImageSize(g)) &&
            TileArea(g, TilePositionAsWritten(g, 1, 0)).Contains(40, 0) &&
            !DrawnArea(FinalImageSize(g), TilePositionAsWritten(g, 1, 0), 16, 32).Contains(40, 0)
  {
  }

  /** An unknown stagger axis gives an empty canvas and empty cells. */
  lemma UnknownAxisIsEmpty(g: Grid, x: int, y: int)
    requires g.staggerAxis.OtherAxis?
    ensures FinalImageSize(g).IsEmpty() && TilePosition(g, x, y).IsEmpty()
  {
  }
}

/** `OrthogonalRendererEngine`: square cells laid out row by row. */
module Orthogonal {
  import opened Geometry
  import opened Canvas
  import Tiled

  /** `GetFinalImageSize`. */
  function FinalImageSize(g: Grid): Rect
  {
    MakeRect(0, 0, g.width * g.tileWidth, g.height * g.tileHeight)
  }

  /** `GetTilePosition`: cell (x, y) covers one tile-sized rectangle. */
  function TilePosition(g: Grid, x: int, y: int): Rect
  {
    MakeRect(x * g.tileWidth, y * g.tileHeight, (x + 1) * g.tileWidth, (y + 1) * g.tileHeight)
  }

  /** The transforms `RotateTileImage` applies for the three flip flags: the
      horizontal flip, then the vertical flip, then the diagonal flip as a
      270 degree turn followed by a horizontal flip. */
  function Steps(hflip: bool, vflip: bool, dflip: bool): seq<Transform>
  {
    (if hflip then [FlipH] else []) + (if vflip then [FlipV] else []) + (if dflip then [Rotate270, FlipH] else [])
  }

  /** `RotateTileImage`. */
  function RotateTileImage(hflip: bool, vflip: bool, dflip: bool, img: Image): Image
  {
    ApplySteps(img, Steps(hflip, vflip, dflip))
  }

  /** A tile without flip flags is drawn from the image it came with. */
  lemma UnflippedKeepsImage(img: Image)
    ensures RotateTileImage(false, false, false, img) == img
  {
  }

  /** Where a pixel of the drawn tile comes from: the diagonal flip transposes
      (x, y) to (y, x); the horizontal and vertical flips then mirror the
      result inside the `w` by `h` source. A diagonal flip swaps the width and
      the height. */
  lemma FlipPixels(hflip: bool, vflip: bool, dflip: bool, w: int, h: int, x: int, y: int)
    ensures StepsDims(Steps(hflip, vflip, dflip), w, h) == if dflip then (h, w) else (w, h)
    ensures StepsBack(Steps(hflip, vflip, dflip), w, h, x, y) ==
              (var p := if dflip then (y, x) else (x, y);
               (if hflip then w - 1 - p.0 else p.0, if vflip then h - 1 - p.1 else p.1))
  {
    var hs: seq<Transform> := if hflip then [FlipH] else [];
    var vs: seq<Transform> := if vflip then [FlipV] else [];
    var ds: seq<Transform> := if dflip then [Rotate270, FlipH] else [];
    assert Steps(hflip, vflip, dflip) == hs + vs + ds;
    assert [Rotate270, FlipH][1..] == [FlipH];
    assert [FlipH][1..] == [] && [FlipV][1..] == [];
    StepsAppend(hs + vs, ds, w, h, x, y);
    var p := StepsBack(ds, w, h, x, y);
    StepsAppend(hs, vs, w, h, p.0, p.1);
  }

  /** Each cell of the map lies inside the final image and has the tile's size. */
  lemma TileInsideImage(g: Grid, x: int, y: int)
    requires 0 <= x < g.width && 0 <= y < g.height
    requires g.tileWidth >= 0 && g.tileHeight >= 0
    ensures TilePosition(g, x, y).Within(FinalImageSize(g))
    ensures TilePosition(g, x, y).Dx() == g.tileWidth && TilePosition(g, x, y).Dy() == g.tileHeight
  {
    MulMonotonic(x + 1, g.width, g.tileWidth);
    MulMonotonic(y + 1, g.height, g.tileHeight);
    MulMonotonic(0, x, g.tileWidth);
    MulMonotonic(0, y, g.tileHeight);
  }

  /** Distinct cells are drawn on disjoint rectangles. */
  lemma TilesDisjoint(g: Grid, x1: int, y1: int, x2: int, y2: int)
    requires (x1, y1) != (x2, y2)
    requires g.tileWidth > 0 && g.tileHeight > 0
    ensures Disjoint(TilePosition(g, x1, y1), TilePosition(g, x2, y2))
  {
    if x1 < x2 {
      MulMonotonic(x1 + 1, x2, g.tileWidth);
    } else if x2 < x1 {
      MulMonotonic(x2 + 1, x1, g.tileWidth);
    } else if y1 < y2 {
      MulMonotonic(y1 + 1, y2, g.tileHeight);
    } else {
      MulMonotonic(y2 + 1, y1, g.tileHeight);
    }
  }

  /** A 10 by 8 map of 16 by 16 tiles renders to a 160 by 128 image. */
  lemma FinalImageSizeExample(axis: Tiled.StaggerAxis)
    ensures FinalImageSize(Grid(10, 8, 16, 16, axis)) == Rect(0, 0, 160, 128)
  {
  }
}

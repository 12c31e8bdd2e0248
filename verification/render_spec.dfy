/** What the renderer computes, as functions of its state: the engine choice,
    the tile image cache fill, the order in which a layer's cells are visited,
    one layer's drawing, and how an object is drawn. */
module RenderSpec {
  import opened Errors
  import opened Geometry
  import opened Canvas
  import opened TmxTileset
  import opened TmxObject
  import opened Tiled
  import opened Utils
  import Orthogonal
  import Hexagonal

  // ---------------------------------------------------------------------------
  // Engines

  /** `RendererEngine`: the two engines, each initialised with the map grid. */
  datatype Engine = OrthogonalEngine(grid: Grid) | HexagonalEngine(grid: Grid)
  {
    function FinalImageSize(): Rect
    {
      match this
      case OrthogonalEngine(g) => Orthogonal.FinalImageSize(g)
      case HexagonalEngine(g) => Hexagonal.FinalImageSize(g)
    }

    function TilePosition(x: int, y: int): Rect
    {
      match this
      case OrthogonalEngine(g) => Orthogonal.TilePosition(g, x, y)
      case HexagonalEngine(g) => Hexagonal.TilePositionAsWritten(g, x, y)
    }

    function RotateTileImage(t: LayerTile, img: Image): Image
      requires t.Tile?
    {
      match this
      case OrthogonalEngine(_) => Orthogonal.RotateTileImage(t.hflip, t.vflip, t.dflip, img)
      case HexagonalEngine(_) => Hexagonal.RotateTileImage(t.hflip, t.vflip, t.dflip, img)
    }
  }

  /** The grid an engine reads from the map. */
  function GridOf(m: Map): Grid
  {
    Grid(m.width, m.height, m.tileWidth, m.tileHeight, m.staggerAxis)
  }

  /** The engine `NewRendererWithFileSystem` picks for the map's orientation. */
  function EngineFor(m: Map): (r: Option<Engine>)
    ensures r.Some? <==> m.orientation == "orthogonal" || m.orientation == "hexagonal"
    ensures r.Some? ==> r.value.grid == GridOf(m) && (r.value.HexagonalEngine? <==> m.orientation == "hexagonal")
  {
    if m.orientation == "orthogonal" then Some(OrthogonalEngine(GridOf(m)))
    else if m.orientation == "hexagonal" then Some(HexagonalEngine(GridOf(m)))
    else None
  }

  // ---------------------------------------------------------------------------
  // Tile images

  /** Opening and decoding an image file, given the tileset's directory and
      the file name from the tileset: the image or the error of either step. */
  type ImageLoader = (string, string) -> Result<Image>

  /** A key of `Renderer.tileCache`: the uint32 sum of a first GID and a
      local id. */
  datatype TileKey = TileKey(sum: int)

  /** `Renderer.tileCache`. */
  type TileCache = map<TileKey, Image>

  /** The state after filling the cache for one tile, and the tile's image
      before rotation: `None` is a nil image (no entry for the tile). */
  datatype Fill = Fill(cache: TileCache, image: Result<Option<Image>>)

  /** A uint32 as a number. */
  function Index(b: bv32): nat
  {
    b as int
  }

  /** A number below 2^32 as a uint32. */
  function Idx(j: nat): bv32
    requires j < 0x1_0000_0000
  {
    j as bv32
  }

  /** The cache key of local id `j`: the uint32 sum wraps around. */
  function Key(firstGID: bv32, j: nat): TileKey
  {
    TileKey((Index(firstGID) + j) % 0x1_0000_0000)
  }

  /** `uint32(TileCount)`: the low 32 bits, as a count. */
  function Count32(n: int): (c: nat)
    ensures c < 0x1_0000_0000
  {
    n % 0x1_0000_0000
  }

  /** The image-collection branch of `getTileImage`: every `<tile>` entry
      with the tile's id has its image opened and decoded and stored under
      `key`; the last such image is the answer. */
  function CollectionFill(cache: TileCache, timg: Option<Image>, key: TileKey, id: bv32,
                          tiles: seq<TilesetTile>, dir: string, loader: ImageLoader): Fill
    decreases |tiles|
  {
    if |tiles| == 0 then Fill(cache, Ok(timg))
    else if tiles[0].id != id then CollectionFill(cache, timg, key, id, tiles[1..], dir, loader)
    else
      match tiles[0].image
      case None => Fill(cache, Err(Panic("nil pointer dereference")))
      case Some(ref) =>
        match loader(dir, ref.source)
        case Err(e) => Fill(cache, Err(e))
        case Ok(img) => CollectionFill(cache[key := img], Some(img), key, id, tiles[1..], dir, loader)
  }

  /** The crop of atlas tile `j`. */
  function AtlasTile(d: TilesetDesc, img: Image, j: nat): Image
    requires d.TileRectDefined() && j < 0x1_0000_0000
  {
    Cropped(img, d.GetTileRect(Idx(j)).value)
  }

  /** The atlas branch of `getTileImage` from index `i` on: each of the
      `count` tiles is cropped out of the decoded image and cached. */
  function AtlasFill(cache: TileCache, timg: Option<Image>, i: nat, count: nat, firstGID: bv32,
                     id: bv32, d: TilesetDesc, img: Image): Fill
    requires count < 0x1_0000_0000
    decreases count - i
  {
    if i >= count then Fill(cache, Ok(timg))
    else
      match d.GetTileRect(Idx(i))
      case Err(e) => Fill(cache, Err(e))
      case Ok(rect) =>
        var c := cache[Key(firstGID, i) := Cropped(img, rect)];
        AtlasFill(c, if Index(id) == i then Some(c[Key(firstGID, i)]) else timg, i + 1, count, firstGID, id, d, img)
  }

  /** `getTileImage` before rotation: a cache hit, or the fill of the
      tileset's image collection or atlas. */
  function TileFill(cache: TileCache, ts: Tileset, id: bv32, loader: ImageLoader): Fill
    reads ts
  {
    var key := Key(ts.firstGID, Index(id));
    if key in cache then Fill(cache, Ok(Some(cache[key])))
    else
      match ts.desc.image
      case None => CollectionFill(cache, None, key, id, ts.desc.tiles, ts.baseDir, loader)
      case Some(ref) =>
        match loader(ts.baseDir, ref.source)
        case Err(e) => Fill(cache, Err(e))
        case Ok(img) => AtlasFill(cache, None, 0, Count32(ts.desc.tileCount), ts.firstGID, id, ts.desc, img)
  }

  /** An image collection without an entry for the tile's id leaves the
      cache untouched and yields the accumulated image (nil at the start). */
  lemma {:induction false} CollectionFillMiss(cache: TileCache, timg: Option<Image>, key: TileKey, id: bv32,
                                             tiles: seq<TilesetTile>, dir: string, loader: ImageLoader)
    requires forall j :: 0 <= j < |tiles| ==> tiles[j].id != id
    ensures CollectionFill(cache, timg, key, id, tiles, dir, loader) == Fill(cache, Ok(timg))
    decreases |tiles|
  {
    if |tiles| > 0 {
      assert tiles[0].id != id;
      CollectionFillMiss(cache, timg, key, id, tiles[1..], dir, loader);
    }
  }

  /** The image an image collection yields is the one stored under the key;
      nothing else in the cache changes. */
  lemma {:induction false} CollectionFillStores(cache: TileCache, timg: Option<Image>, key: TileKey, id: bv32,
                                               tiles: seq<TilesetTile>, dir: string, loader: ImageLoader)
    requires timg.Some? ==> key in cache && cache[key] == timg.value
    ensures CollectionFill(cache, timg, key, id, tiles, dir, loader).image.Ok? &&
            CollectionFill(cache, timg, key, id, tiles, dir, loader).image.value.Some? ==>
              CollectionFill(cache, timg, key, id, tiles, dir, loader).cache ==
              cache[key := CollectionFill(cache, timg, key, id, tiles, dir, loader).image.value.value]
    decreases |tiles|
  {
    if |tiles| == 0 {
      if timg.Some? {
        assert cache[key := timg.value] == cache;
      }
    } else if tiles[0].id != id {
      CollectionFillStores(cache, timg, key, id, tiles[1..], dir, loader);
    } else if tiles[0].image.Some? && loader(dir, tiles[0].image.value.source).Ok? {
      var img := loader(dir, tiles[0].image.value.source).value;
      var f := CollectionFill(cache[key := img], Some(img), key, id, tiles[1..], dir, loader);
      CollectionFillStores(cache[key := img], Some(img), key, id, tiles[1..], dir, loader);
      if f.image.Ok? && f.image.value.Some? {
        assert cache[key := img][key := f.image.value.value] == cache[key := f.image.value.value];
      }
    }
  }

  /** When the fill of an image collection succeeds, it yields the image of
      the LAST entry with the tile's id: that entry has an image and the
      image opens. */
  lemma {:induction false} CollectionFillLast(cache: TileCache, timg: Option<Image>, key: TileKey, id: bv32,
                                             tiles: seq<TilesetTile>, dir: string, loader: ImageLoader, k: nat)
    requires k < |tiles| && tiles[k].id == id
    requires forall j :: k < j < |tiles| ==> tiles[j].id != id
    ensures CollectionFill(cache, timg, key, id, tiles, dir, loader).image.Ok? ==>
              tiles[k].image.Some? && loader(dir, tiles[k].image.value.source).Ok? &&
              CollectionFill(cache, timg, key, id, tiles, dir, loader).image ==
              Ok(Some(loader(dir, tiles[k].image.value.source).value))
    decreases |tiles|
  {
    var rest := tiles[1..];
    if k == 0 {
      if tiles[0].image.Some? && loader(dir, tiles[0].image.value.source).Ok? {
        var img := loader(dir, tiles[0].image.value.source).value;
        assert forall j :: 0 <= j < |rest| ==> rest[j] == tiles[j + 1];
        CollectionFillMiss(cache[key := img], Some(img), key, id, rest, dir, loader);
      }
    } else {
      assert rest[k - 1] == tiles[k];
      assert forall j :: k - 1 < j < |rest| ==> rest[j] == tiles[j + 1];
      if tiles[0].id != id {
        CollectionFillLast(cache, timg, key, id, rest, dir, loader, k - 1);
      } else if tiles[0].image.Some? && loader(dir, tiles[0].image.value.source).Ok? {
        var img := loader(dir, tiles[0].image.value.source).value;
        CollectionFillLast(cache[key := img], Some(img), key, id, rest, dir, loader, k - 1);
      }
    }
  }

  /** An atlas whose geometry is defined caches the crop of every one of its
      `count` tiles under its key, and answers the requested tile's crop when
      its id is below the count and a nil image otherwise. */
  lemma {:induction false} AtlasFillSpec(cache: TileCache, timg: Option<Image>, i: nat, count: nat, firstGID: bv32,
                                        id: bv32, d: TilesetDesc, img: Image)
    requires d.TileRectDefined()
    requires i <= count < 0x1_0000_0000
    requires timg == AtlasAnswer(d, img, id, i)
    ensures AtlasFill(cache, timg, i, count, firstGID, id, d, img).image == Ok(AtlasAnswer(d, img, id, count))
    decreases count - i
  {
    if i < count {
      var c := cache[Key(firstGID, i) := AtlasTile(d, img, i)];
      var t := AtlasAnswer(d, img, id, i + 1);
      AtlasFillSpec(c, t, i + 1, count, firstGID, id, d, img);
      assert AtlasFill(cache, timg, i, count, firstGID, id, d, img) == AtlasFill(c, t, i + 1, count, firstGID, id, d, img) by {
        AtlasStep(cache, timg, i, count, firstGID, id, d, img);
      }
    }
  }

  /** The same fill leaves the crop of every one of the `count` tiles in the
      cache under its key. */
  lemma {:induction false} AtlasFillCaches(cache: TileCache, timg: Option<Image>, i: nat, count: nat, firstGID: bv32,
                                          id: bv32, d: TilesetDesc, img: Image)
    requires d.TileRectDefined()
    requires i <= count < 0x1_0000_0000
    requires CropsCached(cache, firstGID, d, img, i)
    requires timg == AtlasAnswer(d, img, id, i)
    ensures CropsCached(AtlasFill(cache, timg, i, count, firstGID, id, d, img).cache, firstGID, d, img, count)
    decreases count - i
  {
    if i < count {
      var c := cache[Key(firstGID, i) := AtlasTile(d, img, i)];
      var t := AtlasAnswer(d, img, id, i + 1);
      CropsKept(cache, i, firstGID, d, img);
      AtlasFillCaches(c, t, i + 1, count, firstGID, id, d, img);
      assert AtlasFill(cache, timg, i, count, firstGID, id, d, img) == AtlasFill(c, t, i + 1, count, firstGID, id, d, img) by {
        AtlasStep(cache, timg, i, count, firstGID, id, d, img);
      }
    }
  }

  /** The requested tile's crop once the crops below `n` are made, if its id
      is below `n`. */
  function AtlasAnswer(d: TilesetDesc, img: Image, id: bv32, n: nat): (r: Option<Image>)
    requires d.TileRectDefined()
    ensures r.Some? <==> Index(id) < n
  {
    if Index(id) < n then Some(AtlasTile(d, img, Index(id))) else None
  }

  /** The crops of the atlas tiles below `n` are in the cache under their keys. */
  ghost predicate CropsCached(cache: TileCache, firstGID: bv32, d: TilesetDesc, img: Image, n: nat)
    requires d.TileRectDefined() && n <= 0x1_0000_0000
  {
    forall j :: 0 <= j < n ==> Key(firstGID, j) in cache && cache[Key(firstGID, j)] == AtlasTile(d, img, j)
  }

  /** One step of the atlas fill. */
  lemma AtlasStep(cache: TileCache, timg: Option<Image>, i: nat, count: nat, firstGID: bv32,
                  id: bv32, d: TilesetDesc, img: Image)
    requires d.TileRectDefined()
    requires i < count < 0x1_0000_0000
    requires timg == AtlasAnswer(d, img, id, i)
    ensures AtlasFill(cache, timg, i, count, firstGID, id, d, img) ==
            AtlasFill(cache[Key(firstGID, i) := AtlasTile(d, img, i)], AtlasAnswer(d, img, id, i + 1),
                      i + 1, count, firstGID, id, d, img)
  {
  }

  /** Caching crop `i` keeps the crops of the ids below it. */
  lemma CropsKept(cache: TileCache, i: nat, firstGID: bv32, d: TilesetDesc, img: Image)
    requires d.TileRectDefined() && i < 0x1_0000_0000
    requires CropsCached(cache, firstGID, d, img, i)
    ensures CropsCached(cache[Key(firstGID, i) := AtlasTile(d, img, i)], firstGID, d, img, i + 1)
  {
    forall j | 0 <= j < i
      ensures Key(firstGID, j) != Key(firstGID, i)
    {
      KeysDistinct(firstGID, j, i);
    }
  }

  /** Distinct local ids below 2^32 have distinct keys. */
  lemma KeysDistinct(firstGID: bv32, j: nat, k: nat)
    requires j < k < 0x1_0000_0000
    ensures Key(firstGID, j) != Key(firstGID, k)
  {
  }

  /** When the atlas geometry is undefined, the first crop panics before
      anything is cached. */
  lemma AtlasFillPanics(cache: TileCache, n: nat, firstGID: bv32, id: bv32, d: TilesetDesc, img: Image)
    requires !d.TileRectDefined() && 0 < n < 0x1_0000_0000
    ensures AtlasFill(cache, None, 0, n, firstGID, id, d, img).cache == cache
    ensures AtlasFill(cache, None, 0, n, firstGID, id, d, img).image.Err?
    ensures AtlasFill(cache, None, 0, n, firstGID, id, d, img).image.error.Panic?
  {
  }

  /** The cache makes `getTileImage` idempotent: once a tile's image has been
      produced, asking again hits the cache and gives the same image. */
  lemma TileFillMemo(cache: TileCache, ts: Tileset, id: bv32, loader: ImageLoader)
    ensures var f := TileFill(cache, ts, id, loader);
            f.image.Ok? && f.image.value.Some? ==> TileFill(f.cache, ts, id, loader) == Fill(f.cache, f.image)
  {
    var key := Key(ts.firstGID, Index(id));
    if key !in cache {
      match ts.desc.image
      case None =>
        CollectionFillStores(cache, None, key, id, ts.desc.tiles, ts.baseDir, loader);
      case Some(ref) =>
        match loader(ts.baseDir, ref.source)
        case Err(_) =>
        case Ok(img) =>
          var n := Count32(ts.desc.tileCount);
          if ts.desc.TileRectDefined() {
            AtlasFillSpec(cache, None, 0, n, ts.firstGID, id, ts.desc, img);
            AtlasFillCaches(cache, None, 0, n, ts.firstGID, id, ts.desc, img);
          } else if n > 0 {
            AtlasFillPanics(cache, n, ts.firstGID, id, ts.desc, img);
          }
    }
  }

  // ---------------------------------------------------------------------------
  // The order of a layer's cells

  /** A visited cell: its index into the layer's tiles and its position. */
  datatype Cell = Cell(i: int, x: int, y: int)

  /** One inner loop of `_renderLayer`: x from `x` while below `w`, in steps
      of `step`, with the tile index kept at `y*w + x`. */
  function Span(y: int, w: int, x: int, step: nat): seq<Cell>
    requires step > 0
    decreases w - x
  {
    if x >= w then [] else [Cell(y * w + x, x, y)] + Span(y, w, x + step, step)
  }

  /** The cells of row `y`: left to right, or for a hexagonal map the even
      columns first and then the odd ones. */
  function RowCells(y: int, w: int, hex: bool): seq<Cell>
  {
    if hex then Span(y, w, 0, 2) + Span(y, w, 1, 2) else Span(y, w, 0, 1)
  }

  /** The cells of rows `y` to `h - 1`, top to bottom. */
  function LayerCells(y: int, w: int, h: int, hex: bool): seq<Cell>
    decreases h - y
  {
    if y >= h then [] else RowCells(y, w, hex) + LayerCells(y + 1, w, h, hex)
  }

  /** `c` is a cell of the `w` by `h` grid and indexes its tile row-major. */
  predicate InGrid(c: Cell, w: int, h: int)
  {
    0 <= c.x < w && 0 <= c.y < h && c.i == c.y * w + c.x
  }

  /** Row-major order. */
  predicate RowMajorBefore(a: Cell, b: Cell)
  {
    a.y < b.y || (a.y == b.y && a.x < b.x)
  }

  /** Row by row; inside a row the even columns before the odd ones, each
      left to right. */
  predicate StaggeredBefore(a: Cell, b: Cell)
  {
    a.y < b.y || (a.y == b.y && (a.x % 2 < b.x % 2 || (a.x % 2 == b.x % 2 && a.x < b.x)))
  }

  predicate Before(a: Cell, b: Cell, hex: bool)
  {
    if hex then StaggeredBefore(a, b) else RowMajorBefore(a, b)
  }

  /** Some cell of `s` is in column `c`. */
  predicate HasColumn(s: seq<Cell>, c: int)
  {
    exists k :: 0 <= k < |s| && s[k].x == c
  }

  /** Some cell of `s` is at (c, r). */
  predicate HasCell(s: seq<Cell>, c: int, r: int)
  {
    exists k :: 0 <= k < |s| && s[k].x == c && s[k].y == r
  }

  /** Column `c` is reached from `x` in steps of 1 or 2. */
  predicate OnStride(c: int, x: int, step: nat)
  {
    step == 1 || (c - x) % 2 == 0
  }

  /** A cell of row `y` at or after column `x`, on the stride, with its
      row-major index. */
  predicate SpanCell(c: Cell, y: int, w: int, x: int, step: nat)
  {
    c.y == y && x <= c.x < w && OnStride(c.x, x, step) && c.i == y * w + c.x
  }

  /** Every cell of the span is in row `y`, at a column from `x` on that is
      on the stride, with its row-major index. */
  lemma {:induction false} SpanCells(y: int, w: int, x: int, step: nat)
    requires step == 1 || step == 2
    ensures forall k :: 0 <= k < |Span(y, w, x, step)| ==> SpanCell(Span(y, w, x, step)[k], y, w, x, step)
    decreases w - x
  {
    if x < w {
      var s := Span(y, w, x, step);
      var t := Span(y, w, x + step, step);
      SpanCells(y, w, x + step, step);
      assert s == [Cell(y * w + x, x, y)] + t;
      forall k | 0 < k < |s|
        ensures SpanCell(s[k], y, w, x, step)
      {
        assert s[k] == t[k - 1];
        var c := t[k - 1].x;
        assert SpanCell(t[k - 1], y, w, x + step, step);
        assert step == 2 ==> (c - x) % 2 == ((c - (x + step)) + 2) % 2;
      }
    }
  }

  /** The span runs left to right. */
  lemma {:induction false} SpanOrdered(y: int, w: int, x: int, step: nat)
    requires step == 1 || step == 2
    ensures forall j, k :: 0 <= j < k < |Span(y, w, x, step)| ==> Span(y, w, x, step)[j].x < Span(y, w, x, step)[k].x
    decreases w - x
  {
    if x < w {
      var s := Span(y, w, x, step);
      var t := Span(y, w, x + step, step);
      SpanOrdered(y, w, x + step, step);
      SpanCells(y, w, x + step, step);
      assert s == [Cell(y * w + x, x, y)] + t;
      forall j, k | 0 <= j < k < |s|
        ensures s[j].x < s[k].x
      {
        assert s[k] == t[k - 1];
        if j > 0 {
          assert s[j] == t[j - 1];
        } else {
          assert SpanCell(t[k - 1], y, w, x + step, step);
        }
      }
    }
  }

  /** Every column from `x` on that is on the stride is in the span. */
  lemma {:induction false} SpanCovers(y: int, w: int, x: int, step: nat)
    requires step == 1 || step == 2
    ensures forall c :: x <= c < w && OnStride(c, x, step) ==> HasColumn(Span(y, w, x, step), c)
    decreases w - x
  {
    if x < w {
      var s := Span(y, w, x, step);
      var t := Span(y, w, x + step, step);
      SpanCovers(y, w, x + step, step);
      assert s == [Cell(y * w + x, x, y)] + t;
      forall c | x <= c < w && OnStride(c, x, step)
        ensures HasColumn(s, c)
      {
        if c == x {
          assert s[0].x == c;
        } else {
          assert c >= x + step;
          assert OnStride(c, x + step, step);
          var k :| 0 <= k < |t| && t[k].x == c;
          assert s[k + 1].x == c;
        }
      }
    }
  }

  /** Every cell of row `y` is a grid cell of that row. */
  lemma RowInGrid(y: int, w: int, h: int, hex: bool)
    requires 0 <= y < h
    ensures forall k :: 0 <= k < |RowCells(y, w, hex)| ==> InGrid(RowCells(y, w, hex)[k], w, h) && RowCells(y, w, hex)[k].y == y
  {
    if hex {
      var e := Span(y, w, 0, 2);
      var o := Span(y, w, 1, 2);
      SpanCells(y, w, 0, 2);
      SpanCells(y, w, 1, 2);
      var r := e + o;
      forall k | 0 <= k < |r|
        ensures InGrid(r[k], w, h) && r[k].y == y
      {
        if k < |e| {
          assert r[k] == e[k] && SpanCell(e[k], y, w, 0, 2);
        } else {
          assert r[k] == o[k - |e|] && SpanCell(o[k - |e|], y, w, 1, 2);
        }
      }
    } else {
      SpanCells(y, w, 0, 1);
    }
  }

  /** Row `y` is visited in the engine's order: left to right, or even
      columns before odd ones. */
  lemma RowOrdered(y: int, w: int, hex: bool)
    ensures forall j, k :: 0 <= j < k < |RowCells(y, w, hex)| ==> Before(RowCells(y, w, hex)[j], RowCells(y, w, hex)[k], hex)
  {
    if hex {
      var e := Span(y, w, 0, 2);
      var o := Span(y, w, 1, 2);
      SpanCells(y, w, 0, 2);
      SpanCells(y, w, 1, 2);
      SpanOrdered(y, w, 0, 2);
      SpanOrdered(y, w, 1, 2);
      var r := e + o;
      forall j, k | 0 <= j < k < |r|
        ensures StaggeredBefore(r[j], r[k])
      {
        if k < |e| {
          assert r[j] == e[j] && r[k] == e[k];
          assert SpanCell(e[j], y, w, 0, 2) && SpanCell(e[k], y, w, 0, 2);
        } else if j >= |e| {
          assert r[j] == o[j - |e|] && r[k] == o[k - |e|];
          assert SpanCell(o[j - |e|], y, w, 1, 2) && SpanCell(o[k - |e|], y, w, 1, 2);
        } else {
          assert r[j] == e[j] && r[k] == o[k - |e|];
          assert SpanCell(e[j], y, w, 0, 2) && SpanCell(o[k - |e|], y, w, 1, 2);
        }
      }
    } else {
      SpanCells(y, w, 0, 1);
      SpanOrdered(y, w, 0, 1);
    }
  }

  /** Every column of row `y` is visited. */
  lemma RowCovers(y: int, w: int, hex: bool)
    ensures forall c :: 0 <= c < w ==> HasColumn(RowCells(y, w, hex), c)
  {
    if hex {
      var e := Span(y, w, 0, 2);
      var o := Span(y, w, 1, 2);
      SpanCovers(y, w, 0, 2);
      SpanCovers(y, w, 1, 2);
      var r := e + o;
      forall c | 0 <= c < w
        ensures HasColumn(r, c)
      {
        if c % 2 == 0 {
          assert OnStride(c, 0, 2);
          var k :| 0 <= k < |e| && e[k].x == c;
          assert r[k] == e[k];
        } else {
          assert OnStride(c, 1, 2);
          var k :| 0 <= k < |o| && o[k].x == c;
          assert r[|e| + k] == o[k];
        }
      }
    } else {
      SpanCovers(y, w, 0, 1);
      assert forall c :: OnStride(c, 0, 1);
    }
  }

  /** The cells `_renderLayer` visits from row `y` on: each cell of rows
      `y` to `h - 1` exactly once (the order is strict, so nothing repeats),
      with its row-major tile index, in row-major order for an orthogonal map
      and in staggered order for a hexagonal one. */
  lemma {:induction false} LayerCellsShape(y: int, w: int, h: int, hex: bool)
    requires y >= 0
    ensures forall k :: 0 <= k < |LayerCells(y, w, h, hex)| ==>
              InGrid(LayerCells(y, w, h, hex)[k], w, h) && LayerCells(y, w, h, hex)[k].y >= y
    ensures forall j, k :: 0 <= j < k < |LayerCells(y, w, h, hex)| ==>
              Before(LayerCells(y, w, h, hex)[j], LayerCells(y, w, h, hex)[k], hex)
    ensures forall c, r :: 0 <= c < w && y <= r < h ==> HasCell(LayerCells(y, w, h, hex), c, r)
    decreases h - y
  {
    if y < h {
      var row := RowCells(y, w, hex);
      var rest := LayerCells(y + 1, w, h, hex);
      var s := row + rest;
      RowInGrid(y, w, h, hex);
      RowOrdered(y, w, hex);
      RowCovers(y, w, hex);
      LayerCellsShape(y + 1, w, h, hex);
      assert forall k :: 0 <= k < |row| ==> s[k] == row[k];
      assert forall k :: |row| <= k < |s| ==> s[k] == rest[k - |row|];
      forall c, r | 0 <= c < w && y <= r < h
        ensures HasCell(s, c, r)
      {
        if r == y {
          assert HasColumn(row, c);
          var k :| 0 <= k < |row| && row[k].x == c;
          assert s[k].x == c && s[k].y == r;
        } else {
          assert HasCell(rest, c, r);
          var k :| 0 <= k < |rest| && rest[k].x == c && rest[k].y == r;
          assert s[|row| + k].x == c && s[|row| + k].y == r;
        }
      }
    }
  }

  /** A strict visiting order never visits a position twice. */
  lemma OrderedMeansDistinct(s: seq<Cell>, hex: bool, j: nat, k: nat)
    requires forall a, b :: 0 <= a < b < |s| ==> Before(s[a], s[b], hex)
    requires j < k < |s|
    ensures (s[j].x, s[j].y) != (s[k].x, s[k].y)
  {
    assert Before(s[j], s[k], hex);
  }

  // ---------------------------------------------------------------------------
  // Drawing one layer

  /** What `getTileImage` returns once the cache is filled: the rotation of
      the tile's image, a nil image when the tile is not flipped, and the
      `imaging` panic on a nil image when it is. */
  function TileImage(e: Engine, t: LayerTile, image: Result<Option<Image>>): (r: Result<Option<Image>>)
    requires t.Tile?
    ensures image.Err? ==> r == image
    ensures image.Ok? && image.value.Some? ==> r == Ok(Some(e.RotateTileImage(t, image.value.value)))
    ensures image == Ok(None) ==> (r == Ok(None) <==> !t.hflip && !t.vflip && !t.dflip)
  {
    match image
    case Err(er) => Err(er)
    case Ok(None) =>
      if t.hflip || t.vflip || t.dflip then Err(Panic("nil pointer dereference")) else Ok(None)
    case Ok(Some(img)) => Ok(Some(e.RotateTileImage(t, img)))
  }

  /** The renderer state a layer's drawing threads through: the tile cache,
      the blits drawn so far, and the error that stopped the drawing. */
  datatype RunState = RunState(cache: TileCache, blits: seq<Blit>, err: Option<Error>)

  /** The tilesets the tiles of a layer point to. */
  function Tilesets(tiles: seq<Option<LayerTile>>): set<Tileset>
  {
    set k | 0 <= k < |tiles| && tiles[k].Some? && tiles[k].value.Tile? :: tiles[k].value.tileset
  }

  /** `_renderTile` for one visited cell. */
  function TileStep(e: Engine, loader: ImageLoader, tiles: seq<Option<LayerTile>>, opacity: real,
                    st: RunState, c: Cell): RunState
    reads Tilesets(tiles)
  {
    if !(0 <= c.i < |tiles|) then st.(err := Some(Panic("index out of range")))
    else
      match tiles[c.i]
      case None => st.(err := Some(Panic("nil pointer dereference")))
      case Some(t) =>
        if t.IsNil() then st
        else
          var f := TileFill(st.cache, t.tileset, t.id, loader);
          match TileImage(e, t, f.image)
          case Err(er) => st.(cache := f.cache, err := Some(er))
          case Ok(None) => st.(cache := f.cache, err := Some(Panic("nil pointer dereference")))
          case Ok(Some(img)) =>
            st.(cache := f.cache, blits := st.blits + [TileBlit(e.TilePosition(c.x, c.y), img, Mask(opacity))])
  }

  /** `_renderTile` over the cells in order, stopping at the first error. */
  function Run(e: Engine, loader: ImageLoader, tiles: seq<Option<LayerTile>>, opacity: real,
               st: RunState, cells: seq<Cell>): RunState
    reads Tilesets(tiles)
    decreases |cells|
  {
    if st.err.Some? || |cells| == 0 then st
    else Run(e, loader, tiles, opacity, TileStep(e, loader, tiles, opacity, st, cells[0]), cells[1..])
  }

  /** Running two lists of cells one after the other is running their
      concatenation: the loops of `_renderLayer` may be split anywhere. */
  lemma {:induction false} RunAppend(e: Engine, loader: ImageLoader, tiles: seq<Option<LayerTile>>, opacity: real,
                                     st: RunState, a: seq<Cell>, b: seq<Cell>)
    ensures Run(e, loader, tiles, opacity, st, a + b) ==
            Run(e, loader, tiles, opacity, Run(e, loader, tiles, opacity, st, a), b)
    decreases |a|
  {
    if st.err.None? && |a| > 0 {
      assert (a + b)[0] == a[0];
      assert (a + b)[1..] == a[1..] + b;
      RunAppend(e, loader, tiles, opacity, TileStep(e, loader, tiles, opacity, st, a[0]), a[1..], b);
    } else if st.err.None? {
      assert a + b == b;
    }
  }

  /** The first step of a run over an inner loop of `_renderLayer`. */
  lemma RunSpanStep(e: Engine, loader: ImageLoader, tiles: seq<Option<LayerTile>>, opacity: real,
                    st: RunState, y: int, w: int, x: int, step: nat)
    requires step > 0 && x < w && st.err.None?
    ensures Run(e, loader, tiles, opacity, st, Span(y, w, x, step)) ==
            Run(e, loader, tiles, opacity, TileStep(e, loader, tiles, opacity, st, Cell(y * w + x, x, y)), Span(y, w, x + step, step))
  {
    assert Span(y, w, x, step)[0] == Cell(y * w + x, x, y);
    assert Span(y, w, x, step)[1..] == Span(y, w, x + step, step);
  }

  /** A cell whose tile is drawn: inside the tiles and not the nil tile. */
  predicate Drawable(tiles: seq<Option<LayerTile>>, c: Cell)
  {
    0 <= c.i < |tiles| && tiles[c.i].Some? && tiles[c.i].value.Tile?
  }

  /** The cells of `cells` whose tiles are drawn, in order. */
  function DrawnCells(tiles: seq<Option<LayerTile>>, cells: seq<Cell>): (r: seq<Cell>)
    ensures |r| <= |cells|
  {
    if |cells| == 0 then []
    else (if Drawable(tiles, cells[0]) then [cells[0]] else []) + DrawnCells(tiles, cells[1..])
  }

  /** The blit of a drawn cell: at the cell's position on the engine, through
      the mask of the layer opacity, with the tile image after rotation. */
  ghost predicate CellBlit(e: Engine, tiles: seq<Option<LayerTile>>, opacity: real, c: Cell, b: Blit)
    requires Drawable(tiles, c)
  {
    b.TileBlit? && b.dest == e.TilePosition(c.x, c.y) && b.alpha == Mask(opacity) &&
    exists img :: b.image == e.RotateTileImage(tiles[c.i].value, img)
  }

  /** Every cell lies inside the tiles and its entry is present. */
  predicate AllPresent(tiles: seq<Option<LayerTile>>, cells: seq<Cell>)
  {
    forall k :: 0 <= k < |cells| ==> 0 <= cells[k].i < |tiles| && tiles[cells[k].i].Some?
  }

  /** `blits` is `base` followed, one for one and in order, by the blits of
      the drawable cells `d`. */
  ghost predicate DrawsCells(e: Engine, tiles: seq<Option<LayerTile>>, opacity: real, d: seq<Cell>,
                             base: seq<Blit>, blits: seq<Blit>)
  {
    |blits| == |base| + |d| && blits[..|base|] == base &&
    forall k :: 0 <= k < |d| ==> Drawable(tiles, d[k]) && CellBlit(e, tiles, opacity, d[k], blits[|base| + k])
  }

  /** One cell drawn without an error: its entry is present, and it adds the
      cell's blit exactly when its tile is not nil. */
  lemma TileStepDraws(e: Engine, loader: ImageLoader, tiles: seq<Option<LayerTile>>, opacity: real,
                      st: RunState, c: Cell)
    requires st.err.None? && TileStep(e, loader, tiles, opacity, st, c).err.None?
    ensures 0 <= c.i < |tiles| && tiles[c.i].Some?
    ensures DrawsCells(e, tiles, opacity, if Drawable(tiles, c) then [c] else [], st.blits,
                       TileStep(e, loader, tiles, opacity, st, c).blits)
  {
    var st' := TileStep(e, loader, tiles, opacity, st, c);
    if Drawable(tiles, c) {
      var t := tiles[c.i].value;
      var f := TileFill(st.cache, t.tileset, t.id, loader);
      var img := f.image.value.value;
      assert st'.blits == st.blits + [TileBlit(e.TilePosition(c.x, c.y), e.RotateTileImage(t, img), Mask(opacity))];
      assert st'.blits[|st.blits|].image == e.RotateTileImage(t, img);
    }
  }

  /** Blits of a first group of cells followed by those of a second. */
  lemma DrawsCellsAppend(e: Engine, tiles: seq<Option<LayerTile>>, opacity: real, d1: seq<Cell>, d2: seq<Cell>,
                         base: seq<Blit>, mid: seq<Blit>, blits: seq<Blit>)
    requires DrawsCells(e, tiles, opacity, d1, base, mid) && DrawsCells(e, tiles, opacity, d2, mid, blits)
    ensures DrawsCells(e, tiles, opacity, d1 + d2, base, blits)
  {
    var d := d1 + d2;
    assert blits[..|mid|] == mid;
    assert blits[..|base|] == mid[..|base|];
    forall k | 0 <= k < |d|
      ensures Drawable(tiles, d[k]) && CellBlit(e, tiles, opacity, d[k], blits[|base| + k])
    {
      if k < |d1| {
        assert d[k] == d1[k] && blits[|base| + k] == mid[|base| + k];
      } else {
        assert d[k] == d2[k - |d1|] && |base| + k == |mid| + (k - |d1|);
      }
    }
  }

  /** Drawing a layer only appends to the blits; when it ends without an
      error every cell was inside the tiles and held a tile, and the new
      blits are, one for one and in order, those of the cells whose tile is
      not nil. */
  lemma {:induction false} RunDraws(e: Engine, loader: ImageLoader, tiles: seq<Option<LayerTile>>, opacity: real,
                                    st: RunState, cells: seq<Cell>)
    requires st.err.None?
    ensures |st.blits| <= |Run(e, loader, tiles, opacity, st, cells).blits|
    ensures Run(e, loader, tiles, opacity, st, cells).blits[..|st.blits|] == st.blits
    ensures Run(e, loader, tiles, opacity, st, cells).err.None? ==>
              AllPresent(tiles, cells) &&
              DrawsCells(e, tiles, opacity, DrawnCells(tiles, cells), st.blits, Run(e, loader, tiles, opacity, st, cells).blits)
    decreases |cells|
  {
    if |cells| > 0 {
      var c := cells[0];
      var st' := TileStep(e, loader, tiles, opacity, st, c);
      var r := Run(e, loader, tiles, opacity, st, cells);
      assert r == Run(e, loader, tiles, opacity, st', cells[1..]);
      if st'.err.None? {
        TileStepDraws(e, loader, tiles, opacity, st, c);
        RunDraws(e, loader, tiles, opacity, st', cells[1..]);
        var head := if Drawable(tiles, c) then [c] else [];
        assert |st.blits| <= |st'.blits| && st'.blits[..|st.blits|] == st.blits;
        assert r.blits[..|st.blits|] == r.blits[..|st'.blits|][..|st.blits|];
        if r.err.None? {
          assert DrawnCells(tiles, cells) == head + DrawnCells(tiles, cells[1..]);
          DrawsCellsAppend(e, tiles, opacity, head, DrawnCells(tiles, cells[1..]), st.blits, st'.blits, r.blits);
          forall k | 0 <= k < |cells|
            ensures 0 <= cells[k].i < |tiles| && tiles[cells[k].i].Some?
          {
            if k > 0 {
              assert cells[k] == cells[1..][k - 1];
            }
          }
        }
      } else {
        assert r == st' && st'.blits == st.blits;
      }
    }
  }

  /** What `_renderLayer` does to the state: the cells of the whole layer in
      the engine's order, or the unsupported render order error for an
      orthogonal map whose order is not right-down. */
  function LayerRun(e: Engine, loader: ImageLoader, orientation: string, renderOrder: string,
                    w: int, h: int, tiles: seq<Option<LayerTile>>, opacity: real, st: RunState): RunState
    reads Tilesets(tiles)
  {
    if orientation == "hexagonal" then Run(e, loader, tiles, opacity, st, LayerCells(0, w, h, true))
    else if renderOrder == "" || renderOrder == "right-down" then Run(e, loader, tiles, opacity, st, LayerCells(0, w, h, false))
    else st.(err := Some(ErrUnsupportedRenderOrder))
  }

  /** Drawing a layer, whatever its outcome, keeps the blits drawn before it. */
  lemma LayerRunGrows(e: Engine, loader: ImageLoader, orientation: string, renderOrder: string,
                      w: int, h: int, tiles: seq<Option<LayerTile>>, opacity: real, st: RunState)
    requires st.err.None?
    ensures st.blits <= LayerRun(e, loader, orientation, renderOrder, w, h, tiles, opacity, st).blits
  {
    RunDraws(e, loader, tiles, opacity, st, LayerCells(0, w, h, orientation == "hexagonal"));
  }

  /** The blits from index `n` on are tile blits inside `bound`. */
  predicate TilesInside(blits: seq<Blit>, n: nat, bound: Rect)
  {
    forall k :: n <= k < |blits| ==> blits[k].TileBlit? && blits[k].dest.Within(bound)
  }

  /** No two blits from index `n` on overlap. */
  predicate TilesApart(blits: seq<Blit>, n: nat)
  {
    forall j, k :: n <= j < k < |blits| ==> blits[j].TileBlit? && blits[k].TileBlit? && Disjoint(blits[j].dest, blits[k].dest)
  }

  /** The drawn cells of a layer are grid cells in the engine's order. */
  lemma DrawnLayerCells(tiles: seq<Option<LayerTile>>, w: int, h: int, hex: bool)
    ensures forall k :: 0 <= k < |DrawnCells(tiles, LayerCells(0, w, h, hex))| ==>
              InGrid(DrawnCells(tiles, LayerCells(0, w, h, hex))[k], w, h)
    ensures forall a, b :: 0 <= a < b < |DrawnCells(tiles, LayerCells(0, w, h, hex))| ==>
              Before(DrawnCells(tiles, LayerCells(0, w, h, hex))[a], DrawnCells(tiles, LayerCells(0, w, h, hex))[b], hex)
  {
    var cells := LayerCells(0, w, h, hex);
    LayerCellsShape(0, w, h, hex);
    DrawnCellsShape(tiles, cells, hex);
    var d := DrawnCells(tiles, cells);
    forall k | 0 <= k < |d|
      ensures InGrid(d[k], w, h)
    {
      assert d[k] in cells;
      var i :| 0 <= i < |cells| && cells[i] == d[k];
    }
  }

  /** An orthogonal layer drawn without an error puts each non-nil tile of
      its `w` by `h` grid on the canvas once: the blits it adds lie inside the
      final image and no two of them overlap. */
  lemma OrthogonalLayerTiles(g: Grid, loader: ImageLoader, renderOrder: string,
                             tiles: seq<Option<LayerTile>>, opacity: real, st: RunState)
    requires g.tileWidth > 0 && g.tileHeight > 0 && st.err.None?
    requires renderOrder == "" || renderOrder == "right-down"
    ensures LayerRun(OrthogonalEngine(g), loader, "orthogonal", renderOrder, g.width, g.height, tiles, opacity, st).err.None? ==>
              TilesInside(LayerRun(OrthogonalEngine(g), loader, "orthogonal", renderOrder, g.width, g.height, tiles, opacity, st).blits,
                          |st.blits|, Orthogonal.FinalImageSize(g)) &&
              TilesApart(LayerRun(OrthogonalEngine(g), loader, "orthogonal", renderOrder, g.width, g.height, tiles, opacity, st).blits,
                         |st.blits|)
  {
    var e := OrthogonalEngine(g);
    var cells := LayerCells(0, g.width, g.height, false);
    var r := LayerRun(e, loader, "orthogonal", renderOrder, g.width, g.height, tiles, opacity, st);
    assert r == Run(e, loader, tiles, opacity, st, cells);
    RunDraws(e, loader, tiles, opacity, st, cells);
    if r.err.None? {
      var d := DrawnCells(tiles, cells);
      DrawnLayerCells(tiles, g.width, g.height, false);
      OrthogonalCellsInside(g, tiles, opacity, d, st.blits, r.blits);
      OrthogonalCellsApart(g, tiles, opacity, d, st.blits, r.blits);
    }
  }

  /** Blits of grid cells of an orthogonal map lie inside its final image. */
  lemma OrthogonalCellsInside(g: Grid, tiles: seq<Option<LayerTile>>, opacity: real, d: seq<Cell>,
                              base: seq<Blit>, blits: seq<Blit>)
    requires g.tileWidth >= 0 && g.tileHeight >= 0
    requires DrawsCells(OrthogonalEngine(g), tiles, opacity, d, base, blits)
    requires forall k :: 0 <= k < |d| ==> InGrid(d[k], g.width, g.height)
    ensures TilesInside(blits, |base|, Orthogonal.FinalImageSize(g))
  {
    var n := |base|;
    forall k | n <= k < |blits|
      ensures blits[k].TileBlit? && blits[k].dest.Within(Orthogonal.FinalImageSize(g))
    {
      var c := d[k - n];
      assert CellBlit(OrthogonalEngine(g), tiles, opacity, c, blits[k]);
      Orthogonal.TileInsideImage(g, c.x, c.y);
    }
  }

  /** Blits of distinct cells of an orthogonal map, drawn in row-major order,
      do not overlap. */
  lemma OrthogonalCellsApart(g: Grid, tiles: seq<Option<LayerTile>>, opacity: real, d: seq<Cell>,
                             base: seq<Blit>, blits: seq<Blit>)
    requires g.tileWidth > 0 && g.tileHeight > 0
    requires DrawsCells(OrthogonalEngine(g), tiles, opacity, d, base, blits)
    requires forall a, b :: 0 <= a < b < |d| ==> Before(d[a], d[b], false)
    ensures TilesApart(blits, |base|)
  {
    if !TilesApart(blits, |base|) {
      var j, k :| |base| <= j < k < |blits| &&
                  !(blits[j].TileBlit? && blits[k].TileBlit? && Disjoint(blits[j].dest, blits[k].dest));
      OrthogonalPairApart(g, tiles, opacity, d, base, blits, j, k);
    }
  }

  /** The blits `j` and `k` drawn after `base`, `j` first, do not overlap. */
  lemma OrthogonalPairApart(g: Grid, tiles: seq<Option<LayerTile>>, opacity: real, d: seq<Cell>,
                            base: seq<Blit>, blits: seq<Blit>, j: int, k: int)
    requires g.tileWidth > 0 && g.tileHeight > 0
    requires DrawsCells(OrthogonalEngine(g), tiles, opacity, d, base, blits)
    requires forall a, b :: 0 <= a < b < |d| ==> Before(d[a], d[b], false)
    requires |base| <= j < k < |blits|
    ensures blits[j].TileBlit? && blits[k].TileBlit? && Disjoint(blits[j].dest, blits[k].dest)
  {
    var a := j - |base|;
    var b := k - |base|;
    assert blits[j] == blits[|base| + a] && blits[k] == blits[|base| + b];
    OrthogonalBlitAt(g, tiles, opacity, d[a], blits[j]);
    OrthogonalBlitAt(g, tiles, opacity, d[b], blits[k]);
    assert Before(d[a], d[b], false);
    Orthogonal.TilesDisjoint(g, d[a].x, d[a].y, d[b].x, d[b].y);
  }

  /** The blit of a drawn cell of an orthogonal map is a tile blit at the
      cell's position. */
  lemma OrthogonalBlitAt(g: Grid, tiles: seq<Option<LayerTile>>, opacity: real, c: Cell, b: Blit)
    requires Drawable(tiles, c) && CellBlit(OrthogonalEngine(g), tiles, opacity, c, b)
    ensures b.TileBlit? && b.dest == Orthogonal.TilePosition(g, c.x, c.y)
  {
  }

  /** The drawn cells are exactly the cells whose tile is present and not
      the nil tile. */
  lemma {:induction false} DrawnCellsExactly(tiles: seq<Option<LayerTile>>, cells: seq<Cell>)
    ensures forall c :: c in DrawnCells(tiles, cells) <==> c in cells && Drawable(tiles, c)
    decreases |cells|
  {
    if |cells| > 0 {
      DrawnCellsExactly(tiles, cells[1..]);
      assert cells == [cells[0]] + cells[1..];
    }
  }

  /** The drawn cells keep the grid membership and order of the cells. */
  lemma {:induction false} DrawnCellsShape(tiles: seq<Option<LayerTile>>, cells: seq<Cell>, hex: bool)
    ensures forall k :: 0 <= k < |DrawnCells(tiles, cells)| ==> DrawnCells(tiles, cells)[k] in cells
    ensures (forall a, b :: 0 <= a < b < |cells| ==> Before(cells[a], cells[b], hex)) ==>
              forall a, b :: 0 <= a < b < |DrawnCells(tiles, cells)| ==>
                Before(DrawnCells(tiles, cells)[a], DrawnCells(tiles, cells)[b], hex)
    decreases |cells|
  {
    if |cells| > 0 {
      DrawnCellsShape(tiles, cells[1..], hex);
      var d := DrawnCells(tiles, cells);
      var d' := DrawnCells(tiles, cells[1..]);
      var head := if Drawable(tiles, cells[0]) then [cells[0]] else [];
      assert d == head + d';
      forall k | 0 <= k < |d|
        ensures d[k] in cells
      {
        if k >= |head| {
          assert d[k] == d'[k - |head|];
          assert d'[k - |head|] in cells[1..];
        }
      }
      if forall a, b :: 0 <= a < b < |cells| ==> Before(cells[a], cells[b], hex) {
        assert forall a, b :: 0 <= a < b < |cells[1..]| ==> Before(cells[1..][a], cells[1..][b], hex) by {
          forall a, b | 0 <= a < b < |cells[1..]|
            ensures Before(cells[1..][a], cells[1..][b], hex)
          {
            assert cells[1..][a] == cells[a + 1] && cells[1..][b] == cells[b + 1];
          }
        }
        forall a, b | 0 <= a < b < |d|
          ensures Before(d[a], d[b], hex)
        {
          if a >= |head| {
            assert d[a] == d'[a - |head|] && d[b] == d'[b - |head|];
          } else {
            assert d[b] == d'[b - 1] && d'[b - 1] in cells[1..];
            var i :| 0 <= i < |cells[1..]| && cells[1..][i] == d[b];
            assert d[b] == cells[i + 1];
          }
        }
      }
    }
  }

  // ---------------------------------------------------------------------------
  // Objects

  function Min4(a: int, b: int, c: int, d: int): (r: int)
    ensures r <= a && r <= b && r <= c && r <= d
    ensures r == a || r == b || r == c || r == d
  {
    var ab := if a < b then a else b;
    var cd := if c < d then c else d;
    if ab < cd then ab else cd
  }

  /** The origin point `_rotateObjectImage` computes for an unrotated `w` by
      `h` image, from its four corner pixels: the offset of the lower-left
      corner pixel from the top-left of their bounding box. */
  function UnrotatedOrigin(w: int, h: int): (o: (int, int))
    ensures w >= 1 && h >= 1 ==> o == (0, h - 1)
  {
    var xs := [0, w - 1, w - 1, 0];
    var ys := [0, 0, h - 1, h - 1];
    (xs[3] - Min4(xs[0], xs[1], xs[2], xs[3]), ys[3] - Min4(ys[0], ys[1], ys[2], ys[3]))
  }

  /** The tile image at the object's declared size: resized with nearest
      neighbour sampling exactly when its size differs. An image without
      pixels stays without pixels. */
  function ObjectImage(o: Obj, img: Image): (r: Image)
    ensures HasPixels(img) && o.width > 0 && o.height > 0 ==> Size(r) == Some((o.width, o.height))
    ensures Blank(img) ==> Blank(r)
    ensures Size(img) == Some((o.width, o.height)) ==> r == img
  {
    if Size(img) == Some((o.width, o.height)) then img else Resized(img, o.width, o.height)
  }

  /** Where the object's image is drawn: its bounds moved by the object's
      position less the origin point. Known for an unrotated object whose
      image size is known. */
  function ObjectDest(o: Obj, sized: Image): Option<Rect>
  {
    if o.rotation != 0 then None
    else
      match Size(sized)
      case None => None
      case Some(wh) =>
        var origin := UnrotatedOrigin(wh.0, wh.1);
        var dx := o.x - origin.0;
        var dy := o.y - origin.1;
        Some(Rect(dx, dy, dx + wh.0, dy + wh.1))
  }

  /** The blit `renderOneObject` makes of a visible tile object whose tile
      image (after the tile flips) is `img`, in an object group of the given
      opacity. */
  function ObjectBlitFor(o: Obj, img: Image, opacity: real): Blit
  {
    var sized := ObjectImage(o, img);
    ObjectBlit(ObjectDest(o, sized), Rotated(sized, -o.rotation), Mask(opacity))
  }

  /** An unrotated object of positive size is drawn at its declared size with
      its lower-left pixel on the object's position: the image covers the
      columns `x` to `x + width - 1` and the rows `y - height + 1` to `y`. */
  lemma ObjectAnchoredBottomLeft(o: Obj, img: Image, opacity: real)
    requires o.rotation == 0 && o.width >= 1 && o.height >= 1 && HasPixels(img)
    ensures ObjectBlitFor(o, img, opacity).at == Some(Rect(o.x, o.y - o.height + 1, o.x + o.width, o.y + 1))
    ensures Size(ObjectBlitFor(o, img, opacity).image) == Some((o.width, o.height))
    ensures ObjectBlitFor(o, img, opacity).alpha == Mask(opacity)
    ensures var r := ObjectBlitFor(o, img, opacity).at.value;
            r.Contains(o.x, o.y) && !r.Contains(o.x - 1, o.y) && !r.Contains(o.x, o.y + 1)
  {
  }

  /** An unrotated object whose tile image has no pixels (an atlas crop that
      misses the decoded image, say) draws nothing: the resize keeps it
      empty and the destination is an empty rectangle. */
  lemma ObjectFromBlankImage(o: Obj, img: Image, opacity: real)
    requires o.rotation == 0 && Blank(img)
    ensures Blank(ObjectBlitFor(o, img, opacity).image)
    ensures ObjectBlitFor(o, img, opacity).at.Some? && ObjectBlitFor(o, img, opacity).at.value.IsEmpty()
  {
  }

  /** The image is resized exactly when its size differs from the object's
      declared size; an image of the declared size is only rotated. */
  lemma ResizeDecision(o: Obj, img: Image, opacity: real)
    ensures ObjectImage(o, img) == img <==> Size(img) == Some((o.width, o.height))
    ensures Size(img) == Some((o.width, o.height)) ==> ObjectBlitFor(o, img, opacity).image == Rotated(img, -o.rotation)
  {
    if Size(img) != Some((o.width, o.height)) {
      assert ObjectImage(o, img) == Resized(img, o.width, o.height);
      assert img < Resized(img, o.width, o.height);
    }
  }

  /** An atlas tile is not resized when the object has the tileset's tile
      size: the crop of tile `j` from an image that holds it has that size. */
  lemma AtlasObjectNotResized(o: Obj, d: TilesetDesc, file: string, w: int, h: int, j: nat, opacity: real)
    requires d.TileRectDefined() && j < 0x1_0000_0000
    requires var r := d.GetTileRect(Idx(j)).value;
             0 <= r.minX < r.maxX <= w && 0 <= r.minY < r.maxY <= h &&
             o.width == r.Dx() && o.height == r.Dy()
    ensures ObjectBlitFor(o, AtlasTile(d, Decoded(file, w, h), j), opacity).image ==
            Rotated(AtlasTile(d, Decoded(file, w, h), j), -o.rotation)
  {
    CropInside(file, w, h, d.GetTileRect(Idx(j)).value);
    ResizeDecision(o, AtlasTile(d, Decoded(file, w, h), j), opacity);
  }

  // ---------------------------------------------------------------------------
  // What the entry points visit

  /** A layer or object group a render entry point draws. */
  datatype Target = LayerTarget(layer: Layer) | ObjectGroupTarget(group: ObjectGroup)

  /** The visible layers, in order. */
  function VisibleLayers(layers: seq<Layer>): (r: seq<Target>)
    ensures |r| <= |layers|
  {
    if |layers| == 0 then []
    else VisibleLayers(layers[..|layers| - 1]) +
         (if layers[|layers| - 1].visible then [LayerTarget(layers[|layers| - 1])] else [])
  }

  /** The visible object groups, in order. */
  function VisibleObjectGroups(groups: seq<ObjectGroup>): (r: seq<Target>)
    ensures |r| <= |groups|
  {
    if |groups| == 0 then []
    else VisibleObjectGroups(groups[..|groups| - 1]) +
         (if groups[|groups| - 1].visible then [ObjectGroupTarget(groups[|groups| - 1])] else [])
  }

  /** One more layer adds its target when it is visible. */
  lemma VisibleLayersSnoc(layers: seq<Layer>, j: int)
    requires 0 <= j < |layers|
    ensures VisibleLayers(layers[..j + 1]) ==
            VisibleLayers(layers[..j]) + if layers[j].visible then [LayerTarget(layers[j])] else []
  {
    assert layers[..j + 1][..j] == layers[..j];
  }

  /** One more object group adds its target when it is visible. */
  lemma VisibleObjectGroupsSnoc(groups: seq<ObjectGroup>, j: int)
    requires 0 <= j < |groups|
    ensures VisibleObjectGroups(groups[..j + 1]) ==
            VisibleObjectGroups(groups[..j]) + if groups[j].visible then [ObjectGroupTarget(groups[j])] else []
  {
    assert groups[..j + 1][..j] == groups[..j];
  }

  /** `_renderGroup`: the group's visible layers, then its visible object
      groups; the groups nested in it are not drawn. */
  function GroupTargets(g: Group): seq<Target>
  {
    VisibleLayers(g.layers) + VisibleObjectGroups(g.objectGroups)
  }

  /** The contents of the visible groups, in order. */
  function VisibleGroups(groups: seq<Group>): seq<Target>
  {
    if |groups| == 0 then []
    else VisibleGroups(groups[..|groups| - 1]) +
         (if groups[|groups| - 1].visible then GroupTargets(groups[|groups| - 1]) else [])
  }

  /** One more group adds the targets of its contents when it is visible. */
  lemma VisibleGroupsSnoc(groups: seq<Group>, j: int)
    requires 0 <= j < |groups|
    ensures VisibleGroups(groups[..j + 1]) ==
            VisibleGroups(groups[..j]) + if groups[j].visible then GroupTargets(groups[j]) else []
  {
    assert groups[..j + 1][..j] == groups[..j];
  }

  /** Only visible layers of the list are drawn. */
  lemma {:induction false} VisibleLayersSound(layers: seq<Layer>)
    ensures forall t :: t in VisibleLayers(layers) ==> t.LayerTarget? && t.layer.visible && t.layer in layers
    decreases |layers|
  {
    if |layers| > 0 {
      var init := layers[..|layers| - 1];
      VisibleLayersSound(init);
      assert forall l :: l in init ==> l in layers;
    }
  }

  /** Every visible layer of the list is drawn. */
  lemma {:induction false} VisibleLayersComplete(layers: seq<Layer>)
    ensures forall k :: 0 <= k < |layers| && layers[k].visible ==> LayerTarget(layers[k]) in VisibleLayers(layers)
    decreases |layers|
  {
    if |layers| > 0 {
      var init := layers[..|layers| - 1];
      VisibleLayersComplete(init);
      assert forall k :: 0 <= k < |init| ==> init[k] == layers[k];
    }
  }

  /** When every layer is visible, each is drawn where it stands in the list. */
  lemma {:induction false} AllLayersVisible(layers: seq<Layer>)
    requires forall k :: 0 <= k < |layers| ==> layers[k].visible
    ensures VisibleLayers(layers) == seq(|layers|, k requires 0 <= k < |layers| => LayerTarget(layers[k]))
    decreases |layers|
  {
    if |layers| > 0 {
      var init := layers[..|layers| - 1];
      AllLayersVisible(init);
      assert forall k :: 0 <= k < |init| ==> init[k] == layers[k];
    }
  }

  /** Exactly the visible object groups are drawn. */
  lemma {:induction false} VisibleObjectGroupsSpec(groups: seq<ObjectGroup>)
    ensures forall t :: t in VisibleObjectGroups(groups) ==> t.ObjectGroupTarget? && t.group.visible && t.group in groups
    ensures forall k :: 0 <= k < |groups| && groups[k].visible ==> ObjectGroupTarget(groups[k]) in VisibleObjectGroups(groups)
    decreases |groups|
  {
    if |groups| > 0 {
      var init := groups[..|groups| - 1];
      VisibleObjectGroupsSpec(init);
      assert forall k :: 0 <= k < |init| ==> init[k] == groups[k];
      assert forall g :: g in init ==> g in groups;
    }
  }

  /** The group entry points draw only layers of the top-level groups: a
      layer that stands only in a nested group is never drawn. */
  lemma {:induction false} OnlyTopLevelGroupLayers(groups: seq<Group>, l: Layer)
    requires forall k :: 0 <= k < |groups| ==> l !in groups[k].layers
    ensures LayerTarget(l) !in VisibleGroups(groups)
    decreases |groups|
  {
    if |groups| > 0 {
      var init := groups[..|groups| - 1];
      var g := groups[|groups| - 1];
      OnlyTopLevelGroupLayers(init, l);
      VisibleLayersSound(g.layers);
      VisibleObjectGroupsSpec(g.objectGroups);
    }
  }

  /** `renderOneObject` once the object's GID has resolved to `t`: the tile
      image is fetched through the cache and drawn as the object's blit. */
  function ObjectStep(e: Engine, loader: ImageLoader, st: RunState, t: LayerTile, o: Obj, opacity: real): RunState
    requires t.Tile?
    reads t.tileset
  {
    var f := TileFill(st.cache, t.tileset, t.id, loader);
    match TileImage(e, t, f.image)
    case Err(er) => st.(cache := f.cache, err := Some(er))
    case Ok(None) => st.(cache := f.cache, err := Some(Panic("nil pointer dereference")))
    case Ok(Some(img)) => st.(cache := f.cache, blits := st.blits + [ObjectBlitFor(o, img, opacity)])
  }

  /** The object arrays of a list of object groups. */
  function ObjectArrays(groups: seq<ObjectGroup>): set<array<Obj>>
  {
    set k | 0 <= k < |groups| :: groups[k].objects
  }

  /** The object group an object array belongs to. */
  lemma ObjectArrayIndex(groups: seq<ObjectGroup>, a: array<Obj>) returns (k: int)
    requires a in ObjectArrays(groups)
    ensures 0 <= k < |groups| && groups[k].objects == a
  {
    k :| 0 <= k < |groups| && groups[k].objects == a;
  }

  /** The object arrays of the object groups of a list of groups. */
  function GroupObjectArrays(groups: seq<Group>): set<array<Obj>>
  {
    set k, j | 0 <= k < |groups| && 0 <= j < |groups[k].objectGroups| :: groups[k].objectGroups[j].objects
  }

  // ---------------------------------------------------------------------------
  // What the entry points draw

  /** The tilesets the tiles of a list of layers point at. */
  function LayersTilesets(layers: seq<Layer>): set<Tileset>
    reads layers
  {
    set k, t | 0 <= k < |layers| && t in Tilesets(layers[k].tiles) :: t
  }

  /** The visible layers of a list drawn one after the other, each as
      `_renderLayer` draws it, stopping at the first error. */
  function LayersRun(e: Engine, loader: ImageLoader, orientation: string, renderOrder: string, w: int, h: int,
                     layers: seq<Layer>, st: RunState): RunState
    reads layers, LayersTilesets(layers)
    decreases |layers|
  {
    if st.err.Some? || |layers| == 0 then st
    else
      var l := layers[0];
      assert Tilesets(l.tiles) <= LayersTilesets(layers);
      assert LayersTilesets(layers[1..]) <= LayersTilesets(layers) by {
        forall t | t in LayersTilesets(layers[1..]) ensures t in LayersTilesets(layers) {
          var k :| 0 <= k < |layers[1..]| && t in Tilesets(layers[1..][k].tiles);
          assert layers[1..][k] == layers[k + 1];
        }
      }
      var next := if l.visible then LayerRun(e, loader, orientation, renderOrder, w, h, l.tiles, l.opacity, st) else st;
      LayersRun(e, loader, orientation, renderOrder, w, h, layers[1..], next)
  }

  /** The tilesets of the tiles some objects resolved to. */
  function OutcomeTilesets(outs: seq<Result<LayerTile>>): set<Tileset>
  {
    set k | 0 <= k < |outs| && outs[k].Ok? && outs[k].value.Tile? :: outs[k].value.tileset
  }

  /** `renderOneObject`, given what the object's GID resolved to: an
      invisible object or GID 0 is skipped, a resolution error is returned,
      and a resolved tile is drawn as the object's blit. */
  function OneObject(e: Engine, loader: ImageLoader, opacity: real, st: RunState, o: Obj,
                     out: Result<LayerTile>): RunState
    reads if out.Ok? && out.value.Tile? then {out.value.tileset} else {}
  {
    if !o.visible || o.gid == 0 then st
    else
      match out
      case Err(er) => st.(err := Some(er))
      case Ok(t) => if t.Tile? then ObjectStep(e, loader, st, t, o, opacity) else st
  }

  /** The loop of `_renderObjectGroup` over the objects handled so far, each
      with what its GID resolved to, stopping at the first error. */
  function ObjectsRun(e: Engine, loader: ImageLoader, opacity: real, st: RunState, objs: seq<Obj>,
                      outs: seq<Result<LayerTile>>): RunState
    requires |outs| <= |objs|
    reads OutcomeTilesets(outs)
    decreases |outs|
  {
    if |outs| == 0 then st
    else
      var n := |outs| - 1;
      assert OutcomeTilesets(outs[..n]) <= OutcomeTilesets(outs) by {
        forall k | 0 <= k < n ensures outs[..n][k] == outs[k] { }
      }
      var before := ObjectsRun(e, loader, opacity, st, objs, outs[..n]);
      if before.err.Some? then before else OneObject(e, loader, opacity, before, objs[n], outs[n])
  }

  /** Handling one more object continues from where the earlier ones stopped:
      after an error nothing more is drawn. */
  lemma ObjectsRunSnoc(e: Engine, loader: ImageLoader, opacity: real, st: RunState, objs: seq<Obj>,
                       outs: seq<Result<LayerTile>>, out: Result<LayerTile>)
    requires |outs| < |objs|
    ensures var before := ObjectsRun(e, loader, opacity, st, objs, outs);
            ObjectsRun(e, loader, opacity, st, objs, outs + [out]) ==
            if before.err.Some? then before else OneObject(e, loader, opacity, before, objs[|outs|], out)
  {
    assert (outs + [out])[..|outs|] == outs;
    assert (outs + [out])[|outs|] == out;
  }

  /** What drawing one object group saw: its objects in the order they were
      drawn, and what the GID of each object handled resolved to. */
  datatype GroupDraw = GroupDraw(objects: seq<Obj>, outcomes: seq<Result<LayerTile>>)

  /** Each record of drawing an object group stands for one group of the list
      and has no more resolutions than objects. */
  predicate Consistent(groups: seq<ObjectGroup>, draws: seq<GroupDraw>)
  {
    |draws| <= |groups| && forall k :: 0 <= k < |draws| ==> |draws[k].outcomes| <= |draws[k].objects|
  }

  /** The tilesets of the tiles the objects of some object groups resolved to. */
  function DrawTilesets(draws: seq<GroupDraw>): (r: set<Tileset>)
    ensures forall k, t :: 0 <= k < |draws| && t in OutcomeTilesets(draws[k].outcomes) ==> t in r
  {
    set k, t | 0 <= k < |draws| && t in OutcomeTilesets(draws[k].outcomes) :: t
  }

  /** The visible object groups of a list drawn one after the other, each
      with what drawing it saw, stopping at the first error. */
  function ObjectGroupsRun(e: Engine, loader: ImageLoader, groups: seq<ObjectGroup>, draws: seq<GroupDraw>,
                           st: RunState): RunState
    requires Consistent(groups, draws)
    reads DrawTilesets(draws)
    decreases |draws|
  {
    if |draws| == 0 then st
    else
      var n := |draws| - 1;
      assert DrawTilesets(draws[..n]) <= DrawTilesets(draws) by {
        forall k | 0 <= k < n ensures draws[..n][k] == draws[k] { }
      }
      assert OutcomeTilesets(draws[n].outcomes) <= DrawTilesets(draws);
      var before := ObjectGroupsRun(e, loader, groups, draws[..n], st);
      if before.err.Some? || !groups[n].visible then before
      else ObjectsRun(e, loader, groups[n].opacity, before, draws[n].objects, draws[n].outcomes)
  }

  /** Drawing one more object group continues from where the earlier ones
      stopped: an error or an invisible group leaves the state as it was. */
  lemma ObjectGroupsRunSnoc(e: Engine, loader: ImageLoader, groups: seq<ObjectGroup>, draws: seq<GroupDraw>,
                            d: GroupDraw, st: RunState)
    requires Consistent(groups, draws + [d])
    ensures Consistent(groups, draws)
    ensures var before := ObjectGroupsRun(e, loader, groups, draws, st);
            ObjectGroupsRun(e, loader, groups, draws + [d], st) ==
            if before.err.Some? || !groups[|draws|].visible then before
            else ObjectsRun(e, loader, groups[|draws|].opacity, before, d.objects, d.outcomes)
  {
    assert (draws + [d])[..|draws|] == draws;
    assert (draws + [d])[|draws|] == d;
  }

  /** Appending to a record in two steps or in one gives the same record. */
  lemma AppendAssoc<T>(a: seq<T>, b: seq<T>, c: seq<T>)
    ensures a + b + c == a + (b + c)
  {
  }

  /** Objects in the order `_renderObjectGroup` draws them: ascending (Y, X). */
  predicate DrawingOrder(objs: seq<Obj>)
  {
    forall i, j :: 0 <= i <= j < |objs| ==> !SortObjectsLess(objs[j], objs[i])
  }

  /** `d` is a faithful record of drawing an object group of `m` whose
      objects were `objs`: they are drawn sorted, as a permutation, and every
      object handled saw its GID resolve as the map resolves it, into a
      loaded tileset. */
  predicate DrawnFrom(m: Map, objs: multiset<Obj>, d: GroupDraw)
    reads m.TilesetRepr(), OutcomeTilesets(d.outcomes)
  {
    DrawingOrder(d.objects) && multiset(d.objects) == objs && |d.outcomes| <= |d.objects| &&
    (forall t :: t in OutcomeTilesets(d.outcomes) ==> t.sourceLoaded) &&
    forall k :: 0 <= k < |d.outcomes| && d.objects[k].visible && d.objects[k].gid != 0 ==>
      m.ResolvedAs(d.objects[k].gid, d.outcomes[k])
  }

  /** The objects of each object group of a list, as multisets. */
  function ObjectContents(groups: seq<ObjectGroup>): (r: seq<multiset<Obj>>)
    reads ObjectArrays(groups)
    ensures |r| == |groups| && forall k :: 0 <= k < |groups| ==> r[k] == multiset(groups[k].objects[..])
    decreases |groups|
  {
    if |groups| == 0 then []
    else
      assert ObjectArrays(groups[1..]) <= ObjectArrays(groups) by {
        forall k | 0 <= k < |groups| - 1 ensures groups[1..][k] == groups[k + 1] { }
      }
      [multiset(groups[0].objects[..])] + ObjectContents(groups[1..])
  }

  /** `draws` records drawing the visible object groups of `groups`, whose
      objects were `contents`, in list order: an invisible group is not
      drawn, a visible one is drawn as `DrawnFrom` says, and each group but
      the last is drawn to its end (the last as well when `finished`). */
  predicate GroupsDrawnFrom(m: Map, groups: seq<ObjectGroup>, contents: seq<multiset<Obj>>, draws: seq<GroupDraw>,
                            finished: bool)
    reads m.TilesetRepr(), DrawTilesets(draws)
  {
    Consistent(groups, draws) && |contents| == |groups| &&
    forall k :: 0 <= k < |draws| ==>
      if groups[k].visible then
        DrawnFrom(m, contents[k], draws[k]) &&
        (k + 1 < |draws| || finished ==> |draws[k].outcomes| == |draws[k].objects|)
      else draws[k] == GroupDraw([], [])
  }

  /** Every tile of the layers comes from a loaded tileset, as decoding a
      layer through `TileGIDToTile` leaves it. */
  predicate LayersLoaded(layers: seq<Layer>)
    reads layers, LayersTilesets(layers)
  {
    forall t :: t in LayersTilesets(layers) ==> t.sourceLoaded
  }

  /** `_renderGroup`: the group's visible layers, then, unless one failed, its
      visible object groups. */
  function GroupRun(e: Engine, loader: ImageLoader, orientation: string, renderOrder: string, w: int, h: int,
                    g: Group, draws: seq<GroupDraw>, st: RunState): RunState
    requires Consistent(g.objectGroups, draws)
    reads g.layers, LayersTilesets(g.layers), DrawTilesets(draws)
  {
    var mid := LayersRun(e, loader, orientation, renderOrder, w, h, g.layers, st);
    if mid.err.Some? then mid else ObjectGroupsRun(e, loader, g.objectGroups, draws, mid)
  }

  /** The layers of a list of groups. */
  function GroupLayers(groups: seq<Group>): (r: set<Layer>)
    ensures forall k, l :: 0 <= k < |groups| && l in groups[k].layers ==> l in r
  {
    set k, l | 0 <= k < |groups| && l in groups[k].layers :: l
  }

  /** The tilesets drawing some groups reads: those of the layers' tiles and
      those of the tiles their objects resolved to. */
  function GroupsTilesets(groups: seq<Group>, draws: seq<seq<GroupDraw>>): (r: set<Tileset>)
    reads GroupLayers(groups)
    ensures forall k, t :: 0 <= k < |groups| && t in LayersTilesets(groups[k].layers) ==> t in r
    ensures forall k, t :: 0 <= k < |draws| && t in DrawTilesets(draws[k]) ==> t in r
  {
    (set k, t | 0 <= k < |groups| && t in LayersTilesets(groups[k].layers) :: t) +
    (set k, t | 0 <= k < |draws| && t in DrawTilesets(draws[k]) :: t)
  }

  /** The visible groups of a list drawn one after the other, each with what
      drawing its object groups saw, stopping at the first error. */
  function GroupsRun(e: Engine, loader: ImageLoader, orientation: string, renderOrder: string, w: int, h: int,
                     groups: seq<Group>, draws: seq<seq<GroupDraw>>, st: RunState): RunState
    requires |draws| <= |groups| && forall k :: 0 <= k < |draws| ==> Consistent(groups[k].objectGroups, draws[k])
    reads GroupLayers(groups), GroupsTilesets(groups, draws)
    decreases |draws|
  {
    if |draws| == 0 then st
    else
      var n := |draws| - 1;
      assert GroupsTilesets(groups, draws[..n]) <= GroupsTilesets(groups, draws) by {
        forall k | 0 <= k < n ensures draws[..n][k] == draws[k] { }
      }
      var before := GroupsRun(e, loader, orientation, renderOrder, w, h, groups, draws[..n], st);
      if before.err.Some? || !groups[n].visible then before
      else GroupRun(e, loader, orientation, renderOrder, w, h, groups[n], draws[n], before)
  }

  /** Drawing one more group continues from where the earlier ones stopped:
      an error or an invisible group leaves the state as it was. */
  lemma GroupsRunSnoc(e: Engine, loader: ImageLoader, orientation: string, renderOrder: string, w: int, h: int,
                      groups: seq<Group>, draws: seq<seq<GroupDraw>>, d: seq<GroupDraw>, st: RunState)
    requires |draws| < |groups| && forall k :: 0 <= k < |draws| ==> Consistent(groups[k].objectGroups, draws[k])
    requires Consistent(groups[|draws|].objectGroups, d)
    ensures var before := GroupsRun(e, loader, orientation, renderOrder, w, h, groups, draws, st);
            GroupsRun(e, loader, orientation, renderOrder, w, h, groups, draws + [d], st) ==
            if before.err.Some? || !groups[|draws|].visible then before
            else GroupRun(e, loader, orientation, renderOrder, w, h, groups[|draws|], d, before)
  {
    assert (draws + [d])[..|draws|] == draws;
    assert (draws + [d])[|draws|] == d;
  }

  /** Every tile of the layers of the groups comes from a loaded tileset. */
  predicate GroupsLoaded(groups: seq<Group>)
    reads GroupLayers(groups), GroupsTilesets(groups, [])
  {
    forall k :: 0 <= k < |groups| ==> LayersLoaded(groups[k].layers)
  }

  /** The objects of the object groups of each group of a list, as multisets. */
  function GroupContents(groups: seq<Group>): (r: seq<seq<multiset<Obj>>>)
    reads GroupObjectArrays(groups)
    ensures |r| == |groups| && forall k :: 0 <= k < |groups| ==> r[k] == ObjectContents(groups[k].objectGroups)
    decreases |groups|
  {
    if |groups| == 0 then []
    else
      assert ObjectArrays(groups[0].objectGroups) <= GroupObjectArrays(groups);
      assert GroupObjectArrays(groups[1..]) <= GroupObjectArrays(groups) by {
        forall k | 0 <= k < |groups| - 1 ensures groups[1..][k] == groups[k + 1] { }
      }
      [ObjectContents(groups[0].objectGroups)] + GroupContents(groups[1..])
  }

  /** `draws` records drawing the visible groups of `groups`, whose object
      groups held `contents`, in list order: an invisible group is not drawn,
      a visible one has its object groups drawn as `GroupsDrawnFrom` says,
      and each group but the last is drawn to its end (the last as well
      when `finished`). */
  predicate GroupsRecorded(m: Map, groups: seq<Group>, contents: seq<seq<multiset<Obj>>>, draws: seq<seq<GroupDraw>>,
                           finished: bool)
    reads m.TilesetRepr(), GroupsTilesets([], draws)
  {
    |draws| <= |groups| && |contents| == |groups| &&
    forall k :: 0 <= k < |draws| ==>
      Consistent(groups[k].objectGroups, draws[k]) &&
      if groups[k].visible then
        GroupsDrawnFrom(m, groups[k].objectGroups, contents[k], draws[k], k + 1 < |draws| || finished) &&
        (k + 1 < |draws| || finished ==> |draws[k]| == |groups[k].objectGroups|)
      else draws[k] == []
  }

  /** Adding the record of one more group to the records of the groups
      before it. */
  lemma GroupsRecordedSnoc(m: Map, groups: seq<Group>, contents: seq<seq<multiset<Obj>>>, draws: seq<seq<GroupDraw>>,
                           d: seq<GroupDraw>, finished: bool)
    requires GroupsRecorded(m, groups, contents, draws, true) && |draws| < |groups|
    requires Consistent(groups[|draws|].objectGroups, d)
    requires groups[|draws|].visible ==>
               GroupsDrawnFrom(m, groups[|draws|].objectGroups, contents[|draws|], d, finished) &&
               (finished ==> |d| == |groups[|draws|].objectGroups|)
    requires !groups[|draws|].visible ==> d == []
    ensures GroupsRecorded(m, groups, contents, draws + [d], finished)
  {
    var n := |draws|;
    assert forall k :: 0 <= k < n ==> (draws + [d])[k] == draws[k];
    assert (draws + [d])[n] == d;
  }

  /** Adding the record of one more object group to the records of the
      groups before it. */
  lemma DrawsSnoc(m: Map, groups: seq<ObjectGroup>, contents: seq<multiset<Obj>>, draws: seq<GroupDraw>, d: GroupDraw,
                  finished: bool)
    requires GroupsDrawnFrom(m, groups, contents, draws, true) && |draws| < |groups|
    requires groups[|draws|].visible ==> DrawnFrom(m, contents[|draws|], d) && (finished ==> |d.outcomes| == |d.objects|)
    requires !groups[|draws|].visible ==> d == GroupDraw([], [])
    ensures GroupsDrawnFrom(m, groups, contents, draws + [d], finished)
  {
    var n := |draws|;
    assert forall k :: 0 <= k < n ==> (draws + [d])[k] == draws[k];
    assert DrawTilesets(draws + [d]) == DrawTilesets(draws) + OutcomeTilesets(d.outcomes) by {
      assert (draws + [d])[n] == d;
    }
  }
}

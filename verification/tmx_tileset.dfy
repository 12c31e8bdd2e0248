/** Tilesets: atlas geometry (`GetTileRect`) and per-tile lookup (`GetTilesetTile`). */
module TmxTileset {
  import opened Errors
  import opened Geometry

  /** `<image>`: the file it names and its declared pixel size. */
  datatype ImageRef = ImageRef(source: string, width: int, height: int)

  /** `<tile>` inside a tileset: the local id and, in an image-collection
      tileset, the tile's own image. */
  datatype TilesetTile = TilesetTile(id: bv32, image: Option<ImageRef>)

  /** The attributes and children of a `<tileset>` definition. */
  datatype TilesetDesc = TilesetDesc(
    name: string,
    tileWidth: int,
    tileHeight: int,
    spacing: int,
    margin: int,
    tileCount: int,
    columns: int,
    image: Option<ImageRef>,
    tiles: seq<TilesetTile>)
  {
    /** The number of atlas columns: `Columns`, or when that is 0 the image width
        divided by the tile pitch. Reading the width of a missing image and a zero
        pitch are Go runtime panics. */
    function AtlasColumns(): (r: Result<int>)
      ensures columns != 0 ==> r == Ok(columns)
      ensures columns == 0 && image.Some? && tileWidth + spacing > 0 && image.value.width >= 0 ==>
                r.Ok? && r.value == image.value.width / (tileWidth + spacing)
    {
      if columns != 0 then Ok(columns)
      else if image.None? then Err(Panic("nil pointer dereference"))
      else if tileWidth + spacing == 0 then Err(Panic("integer divide by zero"))
      else Ok(GoDiv(image.value.width, tileWidth + spacing))
    }

    /** The tile count derived when `TileCount` is 0 is discarded, but evaluating
        it still dereferences the image and divides by the vertical pitch. */
    predicate DerivedCountPanics()
    {
      tileCount == 0 && (image.None? || tileHeight + spacing == 0)
    }

    /** `GetTileRect` succeeds exactly when none of its divisions or
        dereferences panics. */
    predicate TileRectDefined()
    {
      AtlasColumns().Ok? && AtlasColumns().value != 0 && !DerivedCountPanics()
    }

    /** The atlas cell of a tile id: column = id mod columns, row = id div columns
        (Go's truncating operators). */
    function Column(tileID: bv32): int
      requires TileRectDefined()
    {
      GoMod(tileID as int, AtlasColumns().value)
    }

    function Row(tileID: bv32): int
      requires TileRectDefined()
    {
      GoDiv(tileID as int, AtlasColumns().value)
    }

    /** `GetTileRect`: the rectangle of tile `tileID` inside the tileset image. */
    function GetTileRect(tileID: bv32): (r: Result<Rect>)
      ensures r.Ok? <==> TileRectDefined()
      ensures r.Err? ==> r.error.Panic?
    {
      match AtlasColumns()
      case Err(e) => Err(e)
      case Ok(cols) =>
        if DerivedCountPanics() then
          Err(if image.None? then Panic("nil pointer dereference") else Panic("integer divide by zero"))
        else if cols == 0 then Err(Panic("integer divide by zero"))
        else
          var x := GoMod(tileID as int, cols);
          var y := GoDiv(tileID as int, cols);
          var xOffset := x * spacing + margin;
          var yOffset := y * spacing + margin;
          Ok(MakeRect(x * tileWidth + xOffset, y * tileHeight + yOffset,
                      (x + 1) * tileWidth + xOffset, (y + 1) * tileHeight + yOffset))
    }
  }

  lemma Distribute(k: int, a: int, b: int)
    ensures k * a + k * b == k * (a + b)
    ensures (k + 1) * a == k * a + a
  {
  }

  /** The rectangle is one tile wide and one tile high, and its top-left corner
      is (column * (tileWidth + spacing) + margin, row * (tileHeight + spacing) + margin). */
  lemma TileRectGeometry(d: TilesetDesc, tileID: bv32)
    requires d.TileRectDefined() && d.tileWidth >= 0 && d.tileHeight >= 0
    ensures var x0 := d.Column(tileID) * (d.tileWidth + d.spacing) + d.margin;
            var y0 := d.Row(tileID) * (d.tileHeight + d.spacing) + d.margin;
            d.GetTileRect(tileID) == Ok(Rect(x0, y0, x0 + d.tileWidth, y0 + d.tileHeight))
  {
    var x := d.Column(tileID);
    var y := d.Row(tileID);
    Distribute(x, d.tileWidth, d.spacing);
    Distribute(y, d.tileHeight, d.spacing);
  }

  /** `TileCount` never changes the rectangle, only whether evaluating the
      discarded derived count panics. */
  lemma TileRectIgnoresTileCount(d: TilesetDesc, n: int, tileID: bv32)
    requires n != 0 && d.tileCount != 0
    ensures d.(tileCount := n).GetTileRect(tileID) == d.GetTileRect(tileID)
  {
  }

  /** A 2x2 atlas of 10x10 tiles, with the spacing and margin of a test case. */
  function TestAtlas(spacing: int, margin: int): TilesetDesc
  {
    TilesetDesc("", 10, 10, spacing, margin, 4, 2, None, [])
  }

  /** Tile `id` (below 4) of a test atlas is at column id mod 2 and row id div 2. */
  lemma TestAtlasCell(spacing: int, margin: int, id: bv32)
    requires id < 4
    ensures TestAtlas(spacing, margin).TileRectDefined()
    ensures TestAtlas(spacing, margin).Column(id) == (id as int) % 2
    ensures TestAtlas(spacing, margin).Row(id) == (id as int) / 2
  {
  }

  /** The expected rectangles of the tileset test table: no spacing, no margin. */
  lemma TileRectTestPlain()
    ensures TestAtlas(0, 0).GetTileRect(0) == Ok(Rect(0, 0, 10, 10))
    ensures TestAtlas(0, 0).GetTileRect(1) == Ok(Rect(10, 0, 20, 10))
    ensures TestAtlas(0, 0).GetTileRect(2) == Ok(Rect(0, 10, 10, 20))
    ensures TestAtlas(0, 0).GetTileRect(3) == Ok(Rect(10, 10, 20, 20))
  {
    var d := TestAtlas(0, 0);
    TestAtlasCell(0, 0, 0);
    TileRectGeometry(d, 0);
    TestAtlasCell(0, 0, 1);
    TileRectGeometry(d, 1);
    TestAtlasCell(0, 0, 2);
    TileRectGeometry(d, 2);
    TestAtlasCell(0, 0, 3);
    TileRectGeometry(d, 3);
  }

  /** Spacing 5 adds 5 pixels between neighbouring cells. */
  lemma TileRectTestSpacing()
    ensures TestAtlas(5, 0).GetTileRect(0) == Ok(Rect(0, 0, 10, 10))
    ensures TestAtlas(5, 0).GetTileRect(1) == Ok(Rect(15, 0, 25, 10))
    ensures TestAtlas(5, 0).GetTileRect(2) == Ok(Rect(0, 15, 10, 25))
    ensures TestAtlas(5, 0).GetTileRect(3) == Ok(Rect(15, 15, 25, 25))
  {
    var d := TestAtlas(5, 0);
    TestAtlasCell(5, 0, 0);
    TileRectGeometry(d, 0);
    TestAtlasCell(5, 0, 1);
    TileRectGeometry(d, 1);
    TestAtlasCell(5, 0, 2);
    TileRectGeometry(d, 2);
    TestAtlasCell(5, 0, 3);
    TileRectGeometry(d, 3);
  }

  /** Margin 5 shifts every cell by 5 pixels. */
  lemma TileRectTestMargin()
    ensures TestAtlas(0, 5).GetTileRect(0) == Ok(Rect(5, 5, 15, 15))
    ensures TestAtlas(0, 5).GetTileRect(1) == Ok(Rect(15, 5, 25, 15))
    ensures TestAtlas(0, 5).GetTileRect(2) == Ok(Rect(5, 15, 15, 25))
    ensures TestAtlas(0, 5).GetTileRect(3) == Ok(Rect(15, 15, 25, 25))
  {
    var d := TestAtlas(0, 5);
    TestAtlasCell(0, 5, 0);
    TileRectGeometry(d, 0);
    TestAtlasCell(0, 5, 1);
    TileRectGeometry(d, 1);
    TestAtlasCell(0, 5, 2);
    TileRectGeometry(d, 2);
    TestAtlasCell(0, 5, 3);
    TileRectGeometry(d, 3);
  }

  /** Margin and spacing together. */
  lemma TileRectTestMarginSpacing()
    ensures TestAtlas(5, 5).GetTileRect(0) == Ok(Rect(5, 5, 15, 15))
    ensures TestAtlas(5, 5).GetTileRect(1) == Ok(Rect(20, 5, 30, 15))
    ensures TestAtlas(5, 5).GetTileRect(2) == Ok(Rect(5, 20, 15, 30))
    ensures TestAtlas(5, 5).GetTileRect(3) == Ok(Rect(20, 20, 30, 30))
  {
    var d := TestAtlas(5, 5);
    TestAtlasCell(5, 5, 0);
    TileRectGeometry(d, 0);
    TestAtlasCell(5, 5, 1);
    TileRectGeometry(d, 1);
    TestAtlasCell(5, 5, 2);
    TileRectGeometry(d, 2);
    TestAtlasCell(5, 5, 3);
    TileRectGeometry(d, 3);
  }

  lemma MulLe(a: int, b: int, p: int)
    requires a <= b && p >= 0
    ensures a * p <= b * p
  {
    assert b * p - a * p == (b - a) * p;
  }

  /** Cells in different rows (or columns) of pitch `pitch` do not overlap
      when the tile size is at most the pitch. */
  lemma StrideSeparates(i: int, j: int, pitch: int, size: int, offset: int)
    requires i < j && 0 <= size <= pitch
    ensures i * pitch + offset + size <= j * pitch + offset
  {
    assert (i + 1) * pitch == i * pitch + pitch;
    MulLe(i + 1, j, pitch);
  }

  lemma IdsStayDistinct(a: bv32, b: bv32)
    requires a != b
    ensures a as int != b as int
  {
    assert (a as int) as bv32 == a;
    assert (b as int) as bv32 == b;
  }

  /** Two ids with the same row and column in a `cols`-column atlas are equal. */
  lemma CellDetermines(ia: nat, ib: nat, cols: int)
    requires cols > 0 && ia != ib
    ensures GoDiv(ia, cols) != GoDiv(ib, cols) || GoMod(ia, cols) != GoMod(ib, cols)
  {
    assert ia == (ia / cols) * cols + ia % cols;
    assert ib == (ib / cols) * cols + ib % cols;
  }

  /** Distinct tiles of an atlas with a positive column count, non-negative tile
      sizes and non-negative spacing occupy disjoint rectangles. */
  lemma TileRectsDisjoint(d: TilesetDesc, a: bv32, b: bv32)
    requires d.TileRectDefined() && d.AtlasColumns().value > 0
    requires d.tileWidth >= 0 && d.tileHeight >= 0 && d.spacing >= 0
    requires a != b
    ensures Disjoint(d.GetTileRect(a).value, d.GetTileRect(b).value)
  {
    var cols := d.AtlasColumns().value;
    var xa, ya, xb, yb := d.Column(a), d.Row(a), d.Column(b), d.Row(b);
    assert xa != xb || ya != yb by {
      IdsStayDistinct(a, b);
      CellDetermines(a as int, b as int, cols);
    }
    var pw := d.tileWidth + d.spacing;
    var ph := d.tileHeight + d.spacing;
    var ra := d.GetTileRect(a).value;
    var rb := d.GetTileRect(b).value;
    assert ra == Rect(xa * pw + d.margin, ya * ph + d.margin, xa * pw + d.margin + d.tileWidth, ya * ph + d.margin + d.tileHeight) by {
      TileRectGeometry(d, a);
    }
    assert rb == Rect(xb * pw + d.margin, yb * ph + d.margin, xb * pw + d.margin + d.tileWidth, yb * ph + d.margin + d.tileHeight) by {
      TileRectGeometry(d, b);
    }
    if ya < yb {
      StrideSeparates(ya, yb, ph, d.tileHeight, d.margin);
    } else if yb < ya {
      StrideSeparates(yb, ya, ph, d.tileHeight, d.margin);
    } else if xa < xb {
      StrideSeparates(xa, xb, pw, d.tileWidth, d.margin);
    } else {
      StrideSeparates(xb, xa, pw, d.tileWidth, d.margin);
    }
  }

  /** A tileset record. The definition is fixed once decoded; the loader state
      (`sourceLoaded`, `baseDir`) is updated in place when the tileset is first used. */
  class Tileset {
    const firstGID: bv32
    const source: string
    const desc: TilesetDesc
    var sourceLoaded: bool
    var baseDir: string

    constructor (firstGID: bv32, source: string, desc: TilesetDesc, sourceLoaded: bool, baseDir: string)
      ensures this.firstGID == firstGID && this.source == source && this.desc == desc
      ensures this.sourceLoaded == sourceLoaded && this.baseDir == baseDir
    {
      this.firstGID := firstGID;
      this.source := source;
      this.desc := desc;
      this.sourceLoaded := sourceLoaded;
      this.baseDir := baseDir;
    }

    /** `GetTilesetTile`: the first `<tile>` entry whose id matches, or an error
        when there is none. */
    method GetTilesetTile(tileID: bv32) returns (r: Result<TilesetTile>)
      ensures r.Err? <==> forall k :: 0 <= k < |desc.tiles| ==> desc.tiles[k].id != tileID
      ensures r.Err? ==> r.error == ErrNoTilesetTile
      ensures r.Ok? ==> exists k :: 0 <= k < |desc.tiles| && desc.tiles[k] == r.value &&
                          r.value.id == tileID &&
                          forall j :: 0 <= j < k ==> desc.tiles[j].id != tileID
    {
      var tiles := desc.tiles;
      var i := 0;
      while i < |tiles|
        invariant 0 <= i <= |tiles|
        invariant forall j :: 0 <= j < i ==> tiles[j].id != tileID
      {
        if tiles[i].id == tileID {
          return Ok(tiles[i]);
        }
        i := i + 1;
      }
      return Err(ErrNoTilesetTile);
    }
  }
}

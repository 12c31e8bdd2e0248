/** The map, its tile layers and group layers: GID resolution against the map's
    tilesets and the decoding of a layer's payload into resolved tiles. */
module Tiled {
  import opened Errors
  import opened GoText
  import opened TmxData
  import opened TmxTileset
  import opened TmxObject
  import opened Gid

  /** A resolved layer cell. `NilTile` is the shared `NilLayerTile` (GID 0). */
  datatype LayerTile = NilTile | Tile(id: bv32, tileset: Tileset, hflip: bool, vflip: bool, dflip: bool)
  {
    /** `LayerTile.IsNil`. */
    predicate IsNil() { NilTile? }
  }

  /** `StaggerAxis`: the two axes the hexagonal engine distinguishes, and any
      other value of the attribute. */
  datatype StaggerAxis = AxisX | AxisY | OtherAxis(code: int)

  /** Opening and decoding an external tileset file: given the map's base
      directory and the `source` attribute, the decoded definition and the
      directory of the file, or the error of opening or decoding it. */
  type TilesetLoader = (string, string) -> Result<(TilesetDesc, string)>

  class Map {
    const baseDir: string
    const loader: TilesetLoader
    const orientation: string
    const renderOrder: string
    const width: int
    const height: int
    const tileWidth: int
    const tileHeight: int
    const staggerAxis: StaggerAxis
    const tilesets: seq<Tileset>
    const layers: seq<Layer>
    const objectGroups: seq<ObjectGroup>
    const groups: seq<Group>

    /** A decoded map; `renderOrder` is "right-down" unless the file says otherwise. */
    constructor (baseDir: string, loader: TilesetLoader, orientation: string, renderOrder: string,
                 width: int, height: int, tileWidth: int, tileHeight: int, staggerAxis: StaggerAxis,
                 tilesets: seq<Tileset>, layers: seq<Layer>, objectGroups: seq<ObjectGroup>, groups: seq<Group>)
      ensures this.baseDir == baseDir && this.loader == loader
      ensures this.orientation == orientation && this.renderOrder == renderOrder
      ensures this.width == width && this.height == height
      ensures this.tileWidth == tileWidth && this.tileHeight == tileHeight && this.staggerAxis == staggerAxis
      ensures this.tilesets == tilesets && this.layers == layers
      ensures this.objectGroups == objectGroups && this.groups == groups
    {
      this.baseDir := baseDir;
      this.loader := loader;
      this.orientation := orientation;
      this.renderOrder := renderOrder;
      this.width := width;
      this.height := height;
      this.tileWidth := tileWidth;
      this.tileHeight := tileHeight;
      this.staggerAxis := staggerAxis;
      this.tilesets := tilesets;
      this.layers := layers;
      this.objectGroups := objectGroups;
      this.groups := groups;
    }

    /** The tileset records the map lists; resolution may update them in place. */
    function TilesetRepr(): set<Tileset>
    {
      set t | t in tilesets
    }

    function FirstGIDs(): (r: seq<bv32>)
      ensures |r| == |tilesets| && forall k :: 0 <= k < |r| ==> r[k] == tilesets[k].firstGID
    {
      seq(|tilesets|, k requires 0 <= k < |tilesets| => tilesets[k].firstGID)
    }

    /** The tileset record that resolving `gid` initialises, if any. */
    function SelectedTileset(gid: bv32): Option<Tileset>
    {
      if gid == 0 then None
      else
        match SelectTileset(FirstGIDs(), Bare(gid))
        case None => None
        case Some(i) => Some(tilesets[i])
    }

    /** `t` is a correct resolution of `gid`: the shared nil tile for 0; otherwise
        the selected tileset (the same record when it is inline, a record with the
        same first GID and source when it was loaded), the local id and the flags. */
    predicate Resolves(gid: bv32, t: LayerTile)
    {
      if gid == 0 then t == NilTile
      else
        SelectTileset(FirstGIDs(), Bare(gid)).Some? && t.Tile? &&
        var ts := tilesets[SelectTileset(FirstGIDs(), Bare(gid)).value];
        t.id == LocalId(Bare(gid), ts.firstGID) &&
        t.tileset.firstGID == ts.firstGID && t.tileset.source == ts.source &&
        (ts.source == [] ==> t.tileset == ts) &&
        t.hflip == FlippedHorizontally(gid) && t.vflip == FlippedVertically(gid) &&
        t.dflip == FlippedDiagonally(gid)
    }

    /** The error resolving `gid` returns, if any: no covering tileset, or the
        loader's error for an external tileset that is not loaded. */
    function ResolveError(gid: bv32): Option<Error>
      reads TilesetRepr()
    {
      if gid == 0 then None
      else
        match SelectTileset(FirstGIDs(), Bare(gid))
        case None => Some(ErrInvalidTileGID)
        case Some(i) =>
          var ts := tilesets[i];
          if ts.sourceLoaded || ts.source == [] then None
          else
            match loader(baseDir, ts.source)
            case Err(e) => Some(e)
            case Ok(_) => None
    }

    /** `r` is what resolving `gid` may give: the resolution error when there
        is one, and otherwise a resolution of `gid` into a loaded tileset, which
        is the stub itself unless the loader produced a new record for it. */
    predicate ResolvedAs(gid: bv32, r: Result<LayerTile>)
      reads TilesetRepr(), if r.Ok? && r.value.Tile? then {r.value.tileset} else {}
    {
      match ResolveError(gid)
      case Some(e) => r == Err(e)
      case None =>
        r.Ok? && Resolves(gid, r.value) &&
        (r.value.Tile? ==>
           r.value.tileset.sourceLoaded &&
           (r.value.tileset !in TilesetRepr() ==>
              loader(baseDir, r.value.tileset.source) == Ok((r.value.tileset.desc, r.value.tileset.baseDir))))
    }

    /** `initTileset`: a loaded tileset is returned as is; an inline one is marked
        loaded with the map's base directory; an external one is loaded into a new
        record each time, leaving the stub untouched. */
    method InitTileset(ts: Tileset) returns (r: Result<Tileset>)
      modifies ts
      ensures old(ts.sourceLoaded) ==> r == Ok(ts) && unchanged(ts)
      ensures !old(ts.sourceLoaded) && ts.source == [] ==>
                r == Ok(ts) && ts.sourceLoaded && ts.baseDir == baseDir
      ensures !old(ts.sourceLoaded) && ts.source != [] ==> unchanged(ts)
      ensures !old(ts.sourceLoaded) && ts.source != [] ==>
                match loader(baseDir, ts.source)
                case Err(e) => r == Err(e)
                case Ok(loaded) =>
                  r.Ok? && fresh(r.value) && r.value.desc == loaded.0 && r.value.baseDir == loaded.1 &&
                  r.value.firstGID == ts.firstGID && r.value.source == ts.source && r.value.sourceLoaded
    {
      if ts.sourceLoaded {
        return Ok(ts);
      }
      if |ts.source| == 0 {
        ts.baseDir := baseDir;
        ts.sourceLoaded := true;
        return Ok(ts);
      }
      var loaded := loader(baseDir, ts.source);
      if loaded.Err? {
        return Err(loaded.error);
      }
      var tse := new Tileset(ts.firstGID, ts.source, loaded.value.0, true, loaded.value.1);
      return Ok(tse);
    }

    /** `TileGIDToTile`: scan the tilesets from the last to the first and resolve
        against the first one whose first GID is at most the bare GID. */
    method TileGIDToTile(gid: bv32) returns (r: Result<LayerTile>)
      modifies TilesetRepr()
      ensures r.Err? <==> old(ResolveError(gid)).Some?
      ensures r.Err? ==> r.error == old(ResolveError(gid)).value && unchanged(TilesetRepr())
      ensures r.Ok? ==> Resolves(gid, r.value)
      ensures r.Ok? && r.value.Tile? ==> r.value.tileset.sourceLoaded
      ensures r.Ok? && r.value.Tile? && r.value.tileset !in TilesetRepr() ==>
                fresh(r.value.tileset) && loader(baseDir, r.value.tileset.source) == Ok((r.value.tileset.desc, r.value.tileset.baseDir))
      ensures forall t :: t in TilesetRepr() && t.source != [] ==> unchanged(t)
      ensures forall t :: t in TilesetRepr() && old(t.sourceLoaded) ==> unchanged(t)
      ensures forall k :: 0 <= k < |tilesets| && SelectedTileset(gid) != Some(tilesets[k]) ==> unchanged(tilesets[k])
      ensures SelectedTileset(gid).Some? && SelectedTileset(gid).value.source == [] &&
              !old(SelectedTileset(gid).value.sourceLoaded) ==>
                SelectedTileset(gid).value.sourceLoaded && SelectedTileset(gid).value.baseDir == baseDir
      ensures forall g :: ResolveError(g) == old(ResolveError(g))
      ensures ResolvedAs(gid, r)
    {
      if gid == 0 {
        return Ok(NilTile);
      }
      var bare := Bare(gid);
      var firstGIDs := FirstGIDs();
      var i := |tilesets|;
      while i > 0
        invariant 0 <= i <= |tilesets|
        invariant SelectTileset(firstGIDs, bare) == SelectBelow(firstGIDs, bare, i)
      {
        i := i - 1;
        if Covers(tilesets[i].firstGID, bare) {
          r := ResolveIn(gid, i);
          return;
        }
      }
      return Err(ErrInvalidTileGID);
    }

    /** The hit branch of `TileGIDToTile`: initialise the selected tileset and
        build the tile from the bare GID and the flags. */
    method ResolveIn(gid: bv32, i: nat) returns (r: Result<LayerTile>)
      requires gid != 0 && SelectTileset(FirstGIDs(), Bare(gid)) == Some(i)
      modifies tilesets[i]
      ensures r.Err? <==> old(ResolveError(gid)).Some?
      ensures r.Err? ==> r.error == old(ResolveError(gid)).value && unchanged(tilesets[i])
      ensures r.Ok? ==> Resolves(gid, r.value)
      ensures r.Ok? && r.value.Tile? ==> r.value.tileset.sourceLoaded
      ensures r.Ok? && r.value.Tile? && r.value.tileset !in TilesetRepr() ==>
                fresh(r.value.tileset) && loader(baseDir, r.value.tileset.source) == Ok((r.value.tileset.desc, r.value.tileset.baseDir))
      ensures tilesets[i].source != [] ==> unchanged(tilesets[i])
      ensures old(tilesets[i].sourceLoaded) ==> unchanged(tilesets[i])
      ensures tilesets[i].source == [] && !old(tilesets[i].sourceLoaded) ==>
                tilesets[i].sourceLoaded && tilesets[i].baseDir == baseDir
      ensures forall g :: ResolveError(g) == old(ResolveError(g))
    {
      var ts := InitTileset(tilesets[i]);
      if ts.Err? {
        return Err(ts.error);
      }
      var t := Tile(LocalId(Bare(gid), ts.value.firstGID), ts.value, FlippedHorizontally(gid),
                    FlippedVertically(gid), FlippedDiagonally(gid));
      assert t.id == LocalId(Bare(gid), tilesets[i].firstGID);
      return Ok(t);
    }
  }

  /** Two GIDs that differ only in their flip bits resolve to the same local id
      in a tileset with the same first GID and source (the same record for an
      inline tileset), and a GID whose bits are all flip bits resolves as bare 0. */
  lemma FlipsResolveAlike(m: Map, g1: bv32, g2: bv32, t1: LayerTile, t2: LayerTile)
    requires g1 != 0 && g2 != 0 && Bare(g1) == Bare(g2)
    requires m.Resolves(g1, t1) && m.Resolves(g2, t2)
    ensures t1.Tile? && t2.Tile? && t1.id == t2.id
    ensures t1.tileset.firstGID == t2.tileset.firstGID && t1.tileset.source == t2.tileset.source
    ensures t1.tileset.source == [] ==> t1.tileset == t2.tileset
  {
  }

  /** Only the raw GID 0 resolves to the nil tile; a GID that is nonzero only
      through its flip bits still needs a tileset whose first GID is 0. */
  lemma OnlyZeroIsNil(m: Map, gid: bv32, t: LayerTile)
    requires m.Resolves(gid, t)
    ensures t == NilTile <==> gid == 0
    ensures gid != 0 && gid & !TileFlip == 0 ==>
              exists k :: 0 <= k < |m.tilesets| && m.tilesets[k].firstGID == 0
  {
    if gid != 0 && gid & !TileFlip == 0 {
      OnlyFlipsGiveBareZero(gid);
      var i := SelectTileset(m.FirstGIDs(), Bare(gid)).value;
      assert m.tilesets[i].firstGID <= 0;
    }
  }

  /** With no tilesets at all, every nonzero GID fails to resolve. */
  lemma NoTilesetsNoTiles(m: Map, gid: bv32)
    requires |m.tilesets| == 0 && gid != 0
    ensures m.ResolveError(gid) == Some(ErrInvalidTileGID)
  {
  }

  // ---------------------------------------------------------------------------
  // Layer payloads

  /** The little-endian uint32 at byte offset `j`. */
  function LittleEndian(bytes: seq<byte>, j: nat): bv32
    requires j + 4 <= |bytes|
  {
    (bytes[j] as bv32) + ((bytes[j + 1] as bv32) << 8) +
    ((bytes[j + 2] as bv32) << 16) + ((bytes[j + 3] as bv32) << 24)
  }

  /** The four little-endian bytes of a GID. */
  function EncodeLittleEndian(g: bv32): seq<byte>
  {
    [(g & 0xFF) as byte, ((g >> 8) & 0xFF) as byte, ((g >> 16) & 0xFF) as byte, ((g >> 24) & 0xFF) as byte]
  }

  lemma LittleEndianRoundTrip(g: bv32)
    ensures LittleEndian(EncodeLittleEndian(g), 0) == g
  {
  }

  /** The GIDs of a base64 payload of exactly `4 * w * h` bytes: row-major
      little-endian words when both dimensions are positive; otherwise the loops
      never run and the `w * h` entries keep their zero value. */
  function WordsOf(bytes: seq<byte>, w: int, h: int): (r: seq<bv32>)
    requires |bytes| == w * h * 4
    ensures |r| == w * h
  {
    if w > 0 && h > 0 then seq(w * h, k requires 0 <= k < w * h => LittleEndian(bytes, 4 * k))
    else seq(w * h, _ => 0)
  }

  /** Round trip: the bytes of `w * h` GIDs, row by row, decode to those GIDs. */
  function EncodeWords(gids: seq<bv32>): (r: seq<byte>)
    ensures |r| == 4 * |gids|
  {
    if |gids| == 0 then [] else EncodeLittleEndian(gids[0]) + EncodeWords(gids[1..])
  }

  lemma {:induction false} EncodeWordsAt(gids: seq<bv32>, k: nat)
    requires k < |gids|
    ensures EncodeWords(gids)[4 * k..4 * k + 4] == EncodeLittleEndian(gids[k])
    decreases k
  {
    if k > 0 {
      EncodeWordsAt(gids[1..], k - 1);
      assert EncodeWords(gids) == EncodeLittleEndian(gids[0]) + EncodeWords(gids[1..]);
      assert EncodeWords(gids)[4 * k..4 * k + 4] == EncodeWords(gids[1..])[4 * (k - 1)..4 * (k - 1) + 4];
    }
  }

  lemma WordsRoundTrip(gids: seq<bv32>, w: int, h: int)
    requires w > 0 && h > 0 && |gids| == w * h
    ensures WordsOf(EncodeWords(gids), w, h) == gids
  {
    var bytes := EncodeWords(gids);
    forall k | 0 <= k < w * h
      ensures LittleEndian(bytes, 4 * k) == gids[k]
    {
      EncodeWordsAt(gids, k);
      LittleEndianRoundTrip(gids[k]);
      assert bytes[4 * k..4 * k + 4] == EncodeLittleEndian(gids[k]);
      assert LittleEndian(bytes, 4 * k) == LittleEndian(bytes[4 * k..4 * k + 4], 0);
    }
  }

  /** Word `k` of the payload is `g`. */
  predicate WordAt(bytes: seq<byte>, k: nat, g: bv32)
  {
    4 * k + 4 <= |bytes| && g == LittleEndian(bytes, 4 * k)
  }

  /** Both dimensions negative: a positive count of zero GIDs, whatever the bytes. */
  lemma NegativeDimensionsGiveZeros(bytes: seq<byte>, w: int, h: int)
    requires w < 0 && h < 0 && |bytes| == w * h * 4
    ensures |WordsOf(bytes, w, h)| > 0
    ensures forall k :: 0 <= k < |WordsOf(bytes, w, h)| ==> WordsOf(bytes, w, h)[k] == 0
  {
    assert w * h == (-w) * (-h);
  }

  /** `decodeLayerXML`: one GID per `<tile>` element, in order. */
  function XmlGids(d: Data, w: int, h: int): (r: Result<seq<bv32>>)
  {
    if |d.dataTiles| != w * h then Err(ErrInvalidDecodedTileCount) else Ok(d.dataTiles)
  }

  /** `decodeLayerCSV`: the CSV GIDs, which must number `w * h`. */
  function CsvLayerGids(d: Data, w: int, h: int): (r: Result<seq<bv32>>)
    ensures r.Ok? ==> |r.value| == w * h && r == CsvGids(d.rawData)
    ensures CsvGids(d.rawData).Err? ==> r == CsvGids(d.rawData)
  {
    var gids :- CsvGids(d.rawData);
    if |gids| != w * h then Err(ErrInvalidDecodedTileCount) else Ok(gids)
  }

  /** `decodeLayerBase64`: exactly `4 * w * h` decoded bytes, read as words. */
  function Base64LayerGids(d: Data, w: int, h: int, codecs: Codecs): (r: Result<seq<bv32>>)
    ensures r.Ok? ==> |r.value| == w * h
  {
    var bytes :- DecodeBase64(d, codecs);
    if |bytes| != w * h * 4 then Err(ErrInvalidDecodedTileCount) else Ok(WordsOf(bytes, w, h))
  }

  /** The encoding dispatch of `decodeTiles`. */
  function LayerGids(d: Data, w: int, h: int, codecs: Codecs): (r: Result<seq<bv32>>)
    ensures d.encoding !in {"csv", "base64", ""} ==> r == Err(ErrUnknownEncoding)
    ensures r.Ok? ==> |r.value| == w * h
  {
    if d.encoding == "csv" then CsvLayerGids(d, w, h)
    else if d.encoding == "base64" then Base64LayerGids(d, w, h, codecs)
    else if d.encoding == "" then XmlGids(d, w, h)
    else Err(ErrUnknownEncoding)
  }

  // ---------------------------------------------------------------------------
  // Layers

  /** Every cell is a present nil tile. */
  predicate AllNil(tiles: seq<Option<LayerTile>>)
  {
    forall k :: 0 <= k < |tiles| ==> tiles[k] == Some(NilTile)
  }

  /** Every non-nil cell uses the tileset record `ts`. */
  predicate SharedBy(tiles: seq<Option<LayerTile>>, ts: Tileset)
  {
    forall k :: 0 <= k < |tiles| && tiles[k].Some? && tiles[k].value.Tile? ==> tiles[k].value.tileset == ts
  }

  /** Two non-nil cells use different tileset records. */
  predicate Mixed(tiles: seq<Option<LayerTile>>)
  {
    exists j, k :: 0 <= j < |tiles| && 0 <= k < |tiles| && tiles[j].Some? && tiles[k].Some? &&
      tiles[j].value.Tile? && tiles[k].value.Tile? && tiles[j].value.tileset != tiles[k].value.tileset
  }

  /** The homogeneity scan of `DecodeLayer` over fully resolved cells: the
      tileset record of the first non-nil cell, and whether a later non-nil cell
      uses a different record (the scan stops there). */
  method SharedTileset(tiles: seq<Option<LayerTile>>) returns (common: Tileset?, mixed: bool)
    requires forall k :: 0 <= k < |tiles| ==> tiles[k].Some?
    ensures mixed <==> Mixed(tiles)
    ensures mixed ==> common == null
    ensures !mixed ==> (common == null <==> AllNil(tiles))
    ensures common != null ==> SharedBy(tiles, common)
  {
    common := null;
    var i := 0;
    while i < |tiles|
      invariant 0 <= i <= |tiles|
      invariant common == null ==> AllNil(tiles[..i])
      invariant common != null ==> SharedBy(tiles[..i], common)
      invariant common != null ==> exists k :: 0 <= k < i && tiles[k].value.Tile? && tiles[k].value.tileset == common
    {
      var tile := tiles[i].value;
      if !tile.IsNil() {
        if common == null {
          common := tile.tileset;
        } else if common != tile.tileset {
          var k :| 0 <= k < i && tiles[k].value.Tile? && tiles[k].value.tileset == common;
          assert tiles[k].value.tileset != tiles[i].value.tileset;
          return null, true;
        }
      }
      i := i + 1;
    }
    assert tiles[..i] == tiles;
    mixed := false;
  }

  /** A tile layer. `tiles` holds one entry per cell; `None` is a nil pointer,
      left behind when decoding stopped at an unresolvable GID. */
  class Layer {
    var owner: Map?
    const name: string
    const opacity: real
    const visible: bool
    var tiles: seq<Option<LayerTile>>
    var data: Option<Data>
    var tileset: Tileset?
    var empty: bool

    /** A layer as read from the file: opacity 1 and visible unless it says otherwise. */
    constructor (name: string, opacity: real, visible: bool, data: Option<Data>)
      ensures this.name == name && this.opacity == opacity && this.visible == visible && this.data == data
      ensures owner == null && tiles == [] && tileset == null && !empty
    {
      this.name := name;
      this.opacity := opacity;
      this.visible := visible;
      this.data := data;
      owner := null;
      tiles := [];
      tileset := null;
      empty := false;
    }

    /** `IsEmpty`. */
    function IsEmpty(): bool
      reads this
    {
      empty
    }

    /** Cells `0..n` hold correct resolutions of `gids`, and the rest are nil pointers. */
    predicate ResolvedUpTo(m: Map, gids: seq<bv32>, n: nat)
      reads this
    {
      n <= |gids| && |tiles| == |gids| &&
      (forall k :: 0 <= k < n ==> tiles[k].Some? && m.Resolves(gids[k], tiles[k].value)) &&
      (forall k :: n <= k < |tiles| ==> tiles[k].None?)
    }

    method DecodeLayerXML(m: Map) returns (r: Result<seq<bv32>>)
      requires data.Some?
      ensures r == XmlGids(data.value, m.width, m.height)
    {
      var d := data.value;
      if |d.dataTiles| != m.width * m.height {
        return Err(ErrInvalidDecodedTileCount);
      }
      var gids := new bv32[|d.dataTiles|];
      var i := 0;
      while i < gids.Length
        invariant 0 <= i <= gids.Length
        invariant forall k :: 0 <= k < i ==> gids[k] == d.dataTiles[k]
      {
        gids[i] := d.dataTiles[i];
        i := i + 1;
      }
      assert gids[..] == d.dataTiles;
      return Ok(gids[..]);
    }

    method DecodeLayerCSV(m: Map) returns (r: Result<seq<bv32>>)
      requires data.Some?
      ensures r == CsvLayerGids(data.value, m.width, m.height)
    {
      var gids := DecodeCSV(data.value);
      if gids.Err? {
        return Err(gids.error);
      }
      if |gids.value| != m.width * m.height {
        return Err(ErrInvalidDecodedTileCount);
      }
      return gids;
    }

    method DecodeLayerBase64(m: Map, codecs: Codecs) returns (r: Result<seq<bv32>>)
      requires data.Some?
      ensures r == Base64LayerGids(data.value, m.width, m.height, codecs)
    {
      var decoded := DecodeBase64(data.value, codecs);
      if decoded.Err? {
        return Err(decoded.error);
      }
      var bytes := decoded.value;
      var w, h := m.width, m.height;
      if |bytes| != w * h * 4 {
        return Err(ErrInvalidDecodedTileCount);
      }
      DimensionSigns(w, h, |bytes|);
      var gids := new bv32[w * h](_ => 0);
      var j := 0;
      var y := 0;
      while y < h
        invariant 0 <= y && (h > 0 ==> y <= h)
        invariant j == 4 * RowsDone(y, w) && 0 <= RowsDone(y, w) <= gids.Length
        invariant forall k :: 0 <= k < RowsDone(y, w) ==> WordAt(bytes, k, gids[k])
        invariant forall k :: RowsDone(y, w) <= k < gids.Length ==> gids[k] == 0
      {
        RowsBound(y, w, h);
        j := ReadRow(gids, bytes, y, w, h, j);
        y := y + 1;
      }
      if w > 0 && h > 0 {
        assert RowsDone(y, w) == w * h;
        forall k | 0 <= k < w * h
          ensures gids[k] == WordsOf(bytes, w, h)[k]
        {
          assert WordAt(bytes, k, gids[k]);
        }
      }
      assert gids[..] == WordsOf(bytes, w, h);
      return Ok(gids[..]);
    }

    /** The inner loop of `decodeLayerBase64`: the words of row `y`, read from
        byte offset `j` on, into cells `y * w` to `y * w + w - 1`. */
    method ReadRow(gids: array<bv32>, bytes: seq<byte>, y: int, w: int, h: int, j: int) returns (next: int)
      requires 0 <= y < h && gids.Length == w * h && |bytes| == w * h * 4
      requires j == 4 * RowsDone(y, w)
      requires forall k :: 0 <= k < RowsDone(y, w) ==> WordAt(bytes, k, gids[k])
      requires forall k :: RowsDone(y, w) <= k < gids.Length ==> gids[k] == 0
      modifies gids
      ensures next == 4 * RowsDone(y + 1, w)
      ensures forall k :: 0 <= k < RowsDone(y + 1, w) ==> WordAt(bytes, k, gids[k])
      ensures forall k :: RowsDone(y + 1, w) <= k < gids.Length ==> gids[k] == 0
    {
      RowsBound(y, w, h);
      next := j;
      var x := 0;
      while x < w
        invariant 0 <= x && (w > 0 ==> x <= w) && next == 4 * (RowsDone(y, w) + x)
        invariant RowsDone(y, w) + x <= RowsDone(y + 1, w)
        invariant forall k :: 0 <= k < RowsDone(y, w) + x ==> WordAt(bytes, k, gids[k])
        invariant forall k :: RowsDone(y, w) + x <= k < gids.Length ==> gids[k] == 0
      {
        CellInRange(x, y, w, h);
        gids[y * w + x] := LittleEndian(bytes, next);
        next := next + 4;
        x := x + 1;
      }
    }

    /** `decodeTiles`: decode the payload, then resolve every GID in order,
        stopping at the first GID that does not resolve. */
    method DecodeTiles(m: Map, codecs: Codecs) returns (err: Option<Error>)
      requires data.Some?
      modifies this, m.TilesetRepr()
      ensures data == old(data) && owner == old(owner) && tileset == old(tileset) && empty == old(empty)
      ensures LayerGids(old(data).value, m.width, m.height, codecs).Err? ==>
                err == Some(LayerGids(old(data).value, m.width, m.height, codecs).error) &&
                tiles == old(tiles) && unchanged(m.TilesetRepr())
      ensures LayerGids(old(data).value, m.width, m.height, codecs).Ok? ==>
                var gids := LayerGids(old(data).value, m.width, m.height, codecs).value;
                (err.None? ==> ResolvedUpTo(m, gids, |gids|)) &&
                (err.Some? ==> exists n :: 0 <= n < |gids| && ResolvedUpTo(m, gids, n) &&
                                 err == old(m.ResolveError(gids[n])))
      ensures forall g :: m.ResolveError(g) == old(m.ResolveError(g))
    {
      var gids := DecodeGids(m, codecs);
      if gids.Err? {
        return Some(gids.error);
      }
      err := ResolveGids(m, gids.value);
    }

    /** The encoding dispatch of `decodeTiles`. */
    method DecodeGids(m: Map, codecs: Codecs) returns (r: Result<seq<bv32>>)
      requires data.Some?
      ensures r == LayerGids(data.value, m.width, m.height, codecs)
    {
      var d := data.value;
      if d.encoding == "csv" {
        r := DecodeLayerCSV(m);
      } else if d.encoding == "base64" {
        r := DecodeLayerBase64(m, codecs);
      } else if d.encoding == "" {
        r := DecodeLayerXML(m);
      } else {
        r := Err(ErrUnknownEncoding);
      }
    }

    /** The resolution loop of `decodeTiles`: one cell per GID, resolved in
        order; the first GID that does not resolve stops the loop and leaves
        it and the cells after it nil. */
    method ResolveGids(m: Map, g: seq<bv32>) returns (err: Option<Error>)
      modifies this`tiles, m.TilesetRepr()
      ensures err.None? ==> ResolvedUpTo(m, g, |g|)
      ensures err.Some? ==> exists n :: 0 <= n < |g| && ResolvedUpTo(m, g, n) && err == old(m.ResolveError(g[n]))
      ensures forall e :: m.ResolveError(e) == old(m.ResolveError(e))
    {
      tiles := seq(|g|, _ => None);
      var j := 0;
      while j < |tiles|
        invariant 0 <= j <= |g| && ResolvedUpTo(m, g, j)
        invariant forall e :: m.ResolveError(e) == old(m.ResolveError(e))
      {
        var t := m.TileGIDToTile(g[j]);
        if t.Err? {
          return Some(t.error);
        }
        tiles := tiles[j := Some(t.value)];
        j := j + 1;
      }
      return None;
    }

    /** `DecodeLayer`: attach the layer to the map, decode and resolve its
        payload, drop the raw data, and record whether the layer is empty and
        whether a single tileset serves all of it. */
    method DecodeLayer(m: Map, codecs: Codecs) returns (err: Option<Error>)
      modifies this, m.TilesetRepr()
      ensures owner == m
      ensures old(data).None? ==> err == Some(ErrEmptyLayerData) && tiles == old(tiles) && unchanged(m.TilesetRepr())
      ensures err.Some? ==> tileset == old(tileset) && empty == old(empty)
      ensures old(data).Some? && LayerGids(old(data).value, m.width, m.height, codecs).Err? ==>
                err == Some(LayerGids(old(data).value, m.width, m.height, codecs).error) && tiles == old(tiles) &&
                unchanged(m.TilesetRepr())
      ensures old(data).Some? && LayerGids(old(data).value, m.width, m.height, codecs).Ok? ==>
                var gids := LayerGids(old(data).value, m.width, m.height, codecs).value;
                (err.None? ==> ResolvedUpTo(m, gids, |gids|)) &&
                (err.Some? ==> exists n :: 0 <= n < |gids| && ResolvedUpTo(m, gids, n) &&
                                 err == old(m.ResolveError(gids[n])))
      ensures err.None? ==> data.None?
      ensures err.Some? ==> data == old(data)
      ensures forall g :: m.ResolveError(g) == old(m.ResolveError(g))
      ensures err.None? ==> (empty <==> AllNil(tiles))
      ensures err.None? && tileset != null ==> !AllNil(tiles) && SharedBy(tiles, tileset)
      ensures err.None? && tileset == null ==> AllNil(tiles) || Mixed(tiles)
    {
      owner := m;
      if data.None? {
        return Some(ErrEmptyLayerData);
      }
      err := DecodeTiles(m, codecs);
      if err.Some? {
        return err;
      }
      data := None;
      RecordTileset();
      return None;
    }

    /** The end of `DecodeLayer`: the layer is empty when every tile is nil,
        and its tileset is the one record all non-nil tiles share. */
    method RecordTileset()
      requires forall k :: 0 <= k < |tiles| ==> tiles[k].Some?
      modifies this`tileset, this`empty
      ensures empty <==> AllNil(tiles)
      ensures tileset != null ==> !AllNil(tiles) && SharedBy(tiles, tileset)
      ensures tileset == null ==> AllNil(tiles) || Mixed(tiles)
    {
      var common, mixed := SharedTileset(tiles);
      if mixed {
        tileset := null;
        empty := false;
        return;
      }
      tileset := common;
      empty := false;
      if common == null {
        empty := true;
      }
    }
  }

  /** `0 <= y * w + x < w * h` for a cell inside a `w` by `h` grid. */
  lemma CellInRange(x: int, y: int, w: int, h: int)
    requires 0 <= x < w && 0 <= y < h
    ensures 0 <= y * w + x < w * h
    ensures 4 * (y * w + x) + 4 <= 4 * (w * h)
  {
    assert y * w + x < (y + 1) * w;
    assert (y + 1) * w <= h * w;
  }

  /** The cells filled once rows `0..y` of a `w`-wide grid are read. */
  function RowsDone(y: int, w: int): int
  {
    if w > 0 then y * w else 0
  }

  /** Row `y` of an `h`-row grid ends inside the grid. */
  lemma RowsBound(y: int, w: int, h: int)
    requires 0 <= y < h && w * h >= 0
    ensures 0 <= RowsDone(y, w) <= RowsDone(y + 1, w) <= w * h
    ensures RowsDone(y + 1, w) == RowsDone(y, w) + (if w > 0 then w else 0)
  {
    if w > 0 {
      assert (y + 1) * w <= h * w;
    }
  }

  /** A payload of `4 * w * h` bytes has both dimensions positive, or an empty
      grid, or both dimensions negative. */
  lemma DimensionSigns(w: int, h: int, n: nat)
    requires n == w * h * 4
    ensures h > 0 ==> w >= 0
    ensures w > 0 ==> h >= 0
    ensures w > 0 && h > 0 ==> 0 <= (h - 1) * w < w * h
  {
    if h > 0 && w < 0 {
      assert false;
    }
    if w > 0 && h < 0 {
      assert false;
    }
  }

  /** A group layer. Image layers are not part of this model. */
  class Group {
    const name: string
    const visible: bool
    const opacity: real
    const layers: seq<Layer>
    const objectGroups: seq<ObjectGroup>
    const groups: seq<Group>

    /** A group as read from the file: opacity 1 and visible unless it says otherwise. */
    constructor (name: string, visible: bool, opacity: real, layers: seq<Layer>,
                 objectGroups: seq<ObjectGroup>, groups: seq<Group>)
      ensures this.name == name && this.visible == visible && this.opacity == opacity
      ensures this.layers == layers && this.objectGroups == objectGroups && this.groups == groups
    {
      this.name := name;
      this.visible := visible;
      this.opacity := opacity;
      this.layers := layers;
      this.objectGroups := objectGroups;
      this.groups := groups;
    }
  }
}
